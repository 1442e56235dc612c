/** The second-chance FIFO policy (vm.c, SCFIFO): before a victim is chosen, every page
    accessed since the last look goes to the back of the queue. */
module SecondChance {
  import opened PriorityQueue

  const WORD := 0x1_0000_0000

  type Prios = map<int, int>

  /** `ord` lists the pages of `pr` in eviction order: by strictly rising priority. */
  predicate Order(pr: Prios, ord: seq<int>) {
    && (forall i :: 0 <= i < |ord| ==> ord[i] in pr)
    && (forall p :: p in pr ==> p in ord)
    && (forall i, j :: 0 <= i < j < |ord| ==> ord[i] in pr && ord[j] in pr && pr[ord[i]] < pr[ord[j]])
  }

  /** The pages of s that are (or, with keep false, are not) in acc, in order. */
  function Keep(s: seq<int>, acc: set<int>, keep: bool): seq<int>
    decreases |s|
  {
    if s == [] then []
    else
      var x := s[|s| - 1];
      Keep(s[..|s| - 1], acc, keep) + if (x in acc) == keep then [x] else []
  }

  /** The eviction order when the first n pages have been looked at. */
  function Sweep(ord: seq<int>, acc: set<int>, n: nat): seq<int>
    requires n <= |ord|
  {
    Keep(ord[..n], acc, false) + ord[n..] + Keep(ord[..n], acc, true)
  }

  lemma SweepStart(ord: seq<int>, acc: set<int>)
    ensures Sweep(ord, acc, 0) == ord
  {
    assert ord[..0] == [];
  }

  lemma KeepNext(ord: seq<int>, acc: set<int>, n: nat, keep: bool)
    requires n < |ord|
    ensures Keep(ord[..n + 1], acc, keep) ==
      Keep(ord[..n], acc, keep) + if (ord[n] in acc) == keep then [ord[n]] else []
  {
    assert ord[..n + 1][..n] == ord[..n];
  }

  lemma MovedBack(a: seq<int>, x: int, rest: seq<int>, b: seq<int>)
    ensures ToBack(a + ([x] + rest) + b, |a|) == a + rest + (b + [x])
  {
    assert (a + ([x] + rest) + b)[|a|] == x;
  }

  lemma LeftInPlace(a: seq<int>, x: int, rest: seq<int>, b: seq<int>)
    ensures a + [x] + rest + (b + []) == a + ([x] + rest) + b
  {
  }

  /** Looking at page n moves it to the back, or leaves it where it is. */
  lemma SweepStep(ord: seq<int>, acc: set<int>, n: nat)
    requires n < |ord|
    ensures var k := |Keep(ord[..n], acc, false)|; var s := Sweep(ord, acc, n);
      && k < |s| && s[k] == ord[n]
      && Sweep(ord, acc, n + 1) == if ord[n] in acc then ToBack(s, k) else s
  {
    hide Keep, ToBack;
    var a, b := Keep(ord[..n], acc, false), Keep(ord[..n], acc, true);
    KeepNext(ord, acc, n, false);
    KeepNext(ord, acc, n, true);
    assert ord[n..] == [ord[n]] + ord[n + 1..];
    if ord[n] in acc {
      MovedBack(a, ord[n], ord[n + 1..], b);
      assert a + [] == a;
    } else {
      LeftInPlace(a, ord[n], ord[n + 1..], b);
    }
  }

  lemma SweepEnd(ord: seq<int>, acc: set<int>)
    ensures Sweep(ord, acc, |ord|) == Keep(ord, acc, false) + Keep(ord, acc, true)
  {
    assert ord[..|ord|] == ord && ord[|ord|..] == [];
  }

  /** `ord` with page k moved to the back. */
  function ToBack(ord: seq<int>, k: nat): (r: seq<int>)
    requires k < |ord|
    ensures |r| == |ord|
    ensures forall i :: 0 <= i < |ord| ==>
      r[i] == if i < k then ord[i] else if i < |ord| - 1 then ord[i + 1] else ord[k]
  {
    ord[..k] + ord[k + 1..] + [ord[k]]
  }

  lemma ToBackMember(ord: seq<int>, k: nat, p: int)
    requires k < |ord| && p in ord
    ensures p in ToBack(ord, k)
  {
    var i :| 0 <= i < |ord| && ord[i] == p;
    assert ToBack(ord, k)[if i < k then i else if i == k then |ord| - 1 else i - 1] == p;
  }

  /** Giving one page a priority above all others moves it to the back. */
  lemma PromoteOrder(pr: Prios, ord: seq<int>, k: nat, prio: int)
    requires Order(pr, ord) && k < |ord| && forall p :: p in pr && p != ord[k] ==> pr[p] < prio
    ensures Order(pr[ord[k] := prio], ToBack(ord, k))
  {
    ToBackSame(ord, k);
    PromoteSorted(pr, ord, k, prio);
  }

  lemma ToBackSame(ord: seq<int>, k: nat)
    requires k < |ord|
    ensures forall p :: p in ord <==> p in ToBack(ord, k)
  {
    forall p | p in ord
      ensures p in ToBack(ord, k)
    {
      ToBackMember(ord, k, p);
    }
  }

  lemma PromoteSorted(pr: Prios, ord: seq<int>, k: nat, prio: int)
    requires Order(pr, ord) && k < |ord| && forall p :: p in pr && p != ord[k] ==> pr[p] < prio
    ensures var o := ToBack(ord, k);
            forall i, j :: 0 <= i < j < |o| ==>
              o[i] in pr && o[j] in pr && pr[ord[k] := prio][o[i]] < pr[ord[k] := prio][o[j]]
  {
    var o := ToBack(ord, k);
    forall i, j | 0 <= i < j < |o|
      ensures o[i] in pr && o[j] in pr && pr[ord[k] := prio][o[i]] < pr[ord[k] := prio][o[j]]
    {
      PromotePair(pr, ord, k, prio, i, j);
    }
  }

  lemma PromotePair(pr: Prios, ord: seq<int>, k: nat, prio: int, i: nat, j: nat)
    requires Order(pr, ord) && k < |ord| && i < j < |ord| && forall p :: p in pr && p != ord[k] ==> pr[p] < prio
    ensures var o := ToBack(ord, k);
            o[i] in pr && o[j] in pr && pr[ord[k] := prio][o[i]] < pr[ord[k] := prio][o[j]]
  {
    var i' := if i < k then i else i + 1;
    assert i' != k && ToBack(ord, k)[i] == ord[i'];
    assert ord[i'] != ord[k] by {
      if i' < k {
        assert pr[ord[i']] < pr[ord[k]];
      } else {
        assert pr[ord[k]] < pr[ord[i']];
      }
    }
    if j < |ord| - 1 {
      var j' := if j < k then j else j + 1;
      assert i' < j' && ToBack(ord, k)[j] == ord[j'];
      assert pr[ord[i']] < pr[ord[j']];
      assert ord[j'] != ord[k] by {
        if j' < k {
          assert pr[ord[j']] < pr[ord[k]];
        } else {
          assert pr[ord[k]] < pr[ord[j']];
        }
      }
    }
  }

  /** The heap elements of the pages s. */
  function Items(pr: Prios, s: seq<int>): (r: seq<HeapP>)
    ensures |r| == |s| && forall i :: 0 <= i < |s| ==> r[i] == Item(pr, s[i])
  {
    seq(|s|, i requires 0 <= i < |s| => Item(pr, s[i]))
  }

  function Item(pr: Prios, p: int): HeapP {
    HeapP(p, if p in pr then pr[p] else 0)
  }

  /** The heap holds exactly the pages of `ord` with their priorities. */
  predicate Holds(t: seq<HeapP>, pr: Prios, ord: seq<int>) {
    Heap(t) && Order(pr, ord) && multiset(t) == multiset(Items(pr, ord))
  }

  lemma HoldsElement(t: seq<HeapP>, pr: Prios, ord: seq<int>, x: HeapP)
    requires Order(pr, ord) && multiset(t) == multiset(Items(pr, ord)) && x in t
    ensures x.index in pr && x.priority == pr[x.index]
  {
    assert x in multiset(t);
    assert x in Items(pr, ord);
  }

  lemma HoldsPage(t: seq<HeapP>, pr: Prios, ord: seq<int>, p: int)
    requires Order(pr, ord) && multiset(t) == multiset(Items(pr, ord)) && p in pr
    ensures HeapP(p, pr[p]) in t
  {
    var i :| 0 <= i < |ord| && ord[i] == p;
    assert Items(pr, ord)[i] == HeapP(p, pr[p]);
    assert HeapP(p, pr[p]) in multiset(Items(pr, ord));
  }

  lemma ItemsRemove(pr: Prios, s: seq<int>, k: nat)
    requires k < |s|
    ensures multiset(Items(pr, s[..k] + s[k + 1..])) == multiset(Items(pr, s)) - multiset{Item(pr, s[k])}
  {
    var r := Items(pr, s);
    assert Items(pr, s[..k] + s[k + 1..]) == r[..k] + r[k + 1..];
    assert r == r[..k] + [r[k]] + r[k + 1..];
  }

  /** The heap after page ord[k] was deleted and reinserted behind everyone. */
  lemma PromotedHolds(t: seq<HeapP>, rest: multiset<HeapP>, t': seq<HeapP>, pr: Prios, ord: seq<int>, k: nat, prio: int)
    requires Holds(t, pr, ord) && k < |ord| && ord[k] in pr && forall p :: p in pr && p != ord[k] ==> pr[p] < prio
    requires rest == multiset(t) - multiset{HeapP(ord[k], pr[ord[k]])}
    requires Heap(t') && multiset(t') == rest + multiset{HeapP(ord[k], prio)}
    ensures Holds(t', pr[ord[k] := prio], ToBack(ord, k))
  {
    hide Heap, Items;
    PromoteHolds(pr, ord, k, prio, rest, multiset(t'));
  }

  lemma PromoteHolds(pr: Prios, ord: seq<int>, k: nat, prio: int, before: multiset<HeapP>, after: multiset<HeapP>)
    requires Order(pr, ord) && k < |ord| && forall p :: p in pr && p != ord[k] ==> pr[p] < prio
    requires before == multiset(Items(pr, ord)) - multiset{HeapP(ord[k], pr[ord[k]])}
    requires after == before + multiset{HeapP(ord[k], prio)}
    ensures Order(pr[ord[k] := prio], ToBack(ord, k))
    ensures after == multiset(Items(pr[ord[k] := prio], ToBack(ord, k)))
  {
    PromoteOrder(pr, ord, k, prio);
    PromoteItems(pr, ord, k, prio);
  }

  lemma PromoteItems(pr: Prios, ord: seq<int>, k: nat, prio: int)
    requires Order(pr, ord) && k < |ord|
    ensures ord[k] in pr
    ensures multiset(Items(pr[ord[k] := prio], ToBack(ord, k)))
         == multiset(Items(pr, ord)) - multiset{HeapP(ord[k], pr[ord[k]])} + multiset{HeapP(ord[k], prio)}
  {
    hide Items, Order, ToBack;
    var rest, pr' := ord[..k] + ord[k + 1..], pr[ord[k] := prio];
    OthersKept(pr, ord, k, prio);
    ItemsRemove(pr, ord, k);
    ToBackRest(ord, k);
    ItemsAppend(pr', rest, ord[k]);
  }

  lemma ToBackRest(ord: seq<int>, k: nat)
    requires k < |ord|
    ensures ToBack(ord, k) == ord[..k] + ord[k + 1..] + [ord[k]]
  {
  }

  lemma ItemsAppend(pr: Prios, s: seq<int>, p: int)
    ensures multiset(Items(pr, s + [p])) == multiset(Items(pr, s)) + multiset{Item(pr, p)}
  {
    assert Items(pr, s + [p]) == Items(pr, s) + [Item(pr, p)];
  }

  lemma OthersKept(pr: Prios, ord: seq<int>, k: nat, prio: int)
    requires Order(pr, ord) && k < |ord|
    ensures ord[k] in pr
    ensures var rest := ord[..k] + ord[k + 1..]; Items(pr[ord[k] := prio], rest) == Items(pr, rest)
  {
    var rest := ord[..k] + ord[k + 1..];
    forall i | 0 <= i < |rest|
      ensures rest[i] != ord[k]
    {
      assert rest[i] == ord[if i < k then i else i + 1];
    }
  }

  // ---------------------------------------------------------------- the code

  /** deleteRoot on a page of the heap. */
  method DeletePage(a: array<HeapP>, size: nat, page: int, ghost pr: Prios, ghost ord: seq<int>) returns (n: nat)
    requires 0 < size <= a.Length && Holds(a[..size], pr, ord) && page in pr
    modifies a
    ensures n == size - 1 && Heap(a[..n]) && a[n] == HeapP(page, pr[page])
    ensures multiset(a[..n]) == multiset(old(a[..size])) - multiset{HeapP(page, pr[page])}
  {
    ghost var t := a[..size];
    HoldsPage(t, pr, ord, page);
    assert HasIndex(t, page);
    var out;
    out, n := DeleteRoot(a, size, page);
    assert out in t;
    HoldsElement(t, pr, ord, out);
  }

  /** The priority updatePageInPriorityQueue reads once the page is deleted: the largest
      left (if nothing is left, the cell read still holds the deleted page). */
  method LargestLeft(a: array<HeapP>, n: nat, page: int, ghost t: seq<HeapP>, ghost pr: Prios, ghost ord: seq<int>)
    returns (prio: int)
    requires n < a.Length && Heap(a[..n]) && Holds(t, pr, ord) && page in pr && a[n] == HeapP(page, pr[page])
    requires multiset(a[..n]) == multiset(t) - multiset{HeapP(page, pr[page])}
    ensures (exists p :: p in pr && prio == pr[p]) && forall p :: p in pr && p != page ==> pr[p] <= prio
  {
    var last := FindMaxElementIndex(a, n);
    assert n > 0 ==> a[last] == a[..n][last];
    LargestRest(t, a[..n], pr, ord, page, a[last]);
    return a[last].priority;
  }

  /** updatePageInPriorityQueue on an accessed page: it moves to the back of the
      eviction order. */
  method PromotePage(a: array<HeapP>, size: nat, page: int, ghost pr: Prios, ghost ord: seq<int>, ghost k: nat)
    returns (prio: int)
    requires 0 < size <= a.Length && Holds(a[..size], pr, ord) && k < |ord| && ord[k] == page && page in pr
    requires forall p :: p in pr ==> 0 <= pr[p] < WORD - 1
    modifies a
    ensures Holds(a[..size], pr[page := prio], ToBack(ord, k))
    ensures exists p :: p in pr && prio == pr[p] + 1
  {
    hide Holds, Heap;
    ghost var t := a[..size];
    var n := DeletePage(a, size, page, pr, ord);
    ghost var rest := multiset(a[..n]);
    var largest := LargestLeft(a, n, page, t, pr, ord);
    prio := (largest + 1) % WORD;
    assert prio == largest + 1;
    n := InsertHeap(a, n, HeapP(page, prio));
    PromotedHolds(t, rest, a[..size], pr, ord, k, prio);
  }

  /** The element whose priority the code reads is a page's, and no page but the deleted
      one has a larger priority. */
  lemma LargestRest(t: seq<HeapP>, rest: seq<HeapP>, pr: Prios, ord: seq<int>, page: int, x: HeapP)
    requires Holds(t, pr, ord) && page in pr && multiset(rest) == multiset(t) - multiset{HeapP(page, pr[page])}
    requires if rest == [] then x == HeapP(page, pr[page])
             else x in rest && forall k :: 0 <= k < |rest| ==> rest[k].priority <= x.priority
    ensures x.index in pr && x.priority == pr[x.index]
    ensures forall p :: p in pr && p != page ==> pr[p] <= x.priority
  {
    if rest != [] {
      assert x in multiset(rest);
      assert x in multiset(t);
      HoldsElement(t, pr, ord, x);
    }
    forall p | p in pr && p != page
      ensures pr[p] <= x.priority
    {
      HoldsPage(t, pr, ord, p);
      assert HeapP(p, pr[p]) in multiset(t);
      assert HeapP(p, pr[p]) in multiset(rest);
      assert HeapP(p, pr[p]) in rest;
    }
  }

  lemma HoldsSize(t: seq<HeapP>, pr: Prios, ord: seq<int>)
    requires Holds(t, pr, ord)
    ensures |ord| == |t|
  {
    assert |multiset(t)| == |t| && |multiset(Items(pr, ord))| == |ord|;
  }

  /** extractMin takes the pages in eviction order. */
  lemma NextPage(t: seq<HeapP>, pr: Prios, ord: seq<int>, n: nat, x: HeapP)
    requires Order(pr, ord) && n < |ord| && multiset(t) == multiset(Items(pr, ord[n..]))
    requires x in multiset(t) && AtMost(x.priority, multiset(t))
    ensures x == HeapP(ord[n], pr[ord[n]])
    ensures multiset(t) - multiset{x} == multiset(Items(pr, ord[n + 1..]))
    ensures ord[n] !in ord[..n]
  {
    ItemsFirst(pr, ord, n);
    FirstIsLeast(pr, ord, n, x);
    hide Items;
    forall i | 0 <= i < n
      ensures ord[i] != ord[n]
    {
      assert pr[ord[i]] < pr[ord[n]];
    }
  }

  lemma ItemsFirst(pr: Prios, ord: seq<int>, n: nat)
    requires n < |ord|
    ensures multiset(Items(pr, ord[n..])) == multiset{Item(pr, ord[n])} + multiset(Items(pr, ord[n + 1..]))
  {
    assert Items(pr, ord[n..]) == [Item(pr, ord[n])] + Items(pr, ord[n + 1..]);
  }

  lemma FirstIsLeast(pr: Prios, ord: seq<int>, n: nat, x: HeapP)
    requires Order(pr, ord) && n < |ord| && x in multiset(Items(pr, ord[n..]))
    requires AtMost(x.priority, multiset(Items(pr, ord[n..])))
    ensures x == HeapP(ord[n], pr[ord[n]])
  {
    var its := Items(pr, ord[n..]);
    var j :| 0 <= j < |its| && its[j] == x;
    assert its[0] in multiset(its);
    assert x == HeapP(ord[n + j], pr[ord[n + j]]) && its[0] == HeapP(ord[n], pr[ord[n]]);
    if j > 0 {
      assert pr[ord[n]] < pr[ord[n + j]];
    }
  }

  /** The pass after n pages: `temp` still holds the pages not yet looked at, with their
      old priorities; the heap itself is in swept order. */
  ghost predicate Pass(temp: seq<HeapP>, heap: seq<HeapP>, pr0: Prios, ord0: seq<int>, pr: Prios,
                       accessed: set<int>, accessed': set<int>, n: nat) {
    && n <= |ord0| && Order(pr0, ord0) && Heap(temp) && multiset(temp) == multiset(Items(pr0, ord0[n..]))
    && Holds(heap, pr, Sweep(ord0, accessed, n)) && pr.Keys == pr0.Keys
    && (forall p :: p in pr ==> 0 <= pr[p] && pr[p] + (|ord0| - n) < WORD)
    && (forall p :: p in accessed' <==> p in accessed && p !in ord0[..n])
  }

  /** One turn of updatePagesInPriorityQueue's loop. */
  method UpdateNext(temp: array<HeapP>, left: nat, a: array<HeapP>, size: nat, ghost pr0: Prios, ghost ord0: seq<int>,
                    ghost pr: Prios, ghost accessed: set<int>, acc: set<int>, ghost n: nat)
    returns (acc': set<int>, ghost pr': Prios)
    requires temp != a && 0 < left <= temp.Length && 0 < size <= a.Length && n < |ord0|
    requires Pass(temp[..left], a[..size], pr0, ord0, pr, accessed, acc, n)
    modifies temp, a
    ensures Pass(temp[..left - 1], a[..size], pr0, ord0, pr', accessed, acc', n + 1)
  {
    hide Pass, Holds, Order, Items, Heap, Keep, Sweep, AtMost;
    ghost var t, h := temp[..left], a[..size];
    PassFacts(t, h, pr0, ord0, pr, accessed, acc, n);
    var x, rest := ExtractMin(temp, left);
    NextPage(t, pr0, ord0, n, x);
    SweepStep(ord0, accessed, n);
    pr', acc' := pr, acc;
    if x.index in acc {
      ghost var k := |Keep(ord0[..n], accessed, false)|;
      PassMember(pr0, ord0, n);
      var prio := PromotePage(a, size, x.index, pr, Sweep(ord0, accessed, n), k);
      pr' := pr[x.index := prio];
      acc' := acc - {x.index};
      PassPromoted(t, temp[..rest], h, a[..size], pr0, ord0, pr, prio, accessed, acc, n, x);
    } else {
      PassKept(t, temp[..rest], h, pr0, ord0, pr, accessed, acc, n, x);
    }
  }

  lemma PassFacts(t: seq<HeapP>, h: seq<HeapP>, pr0: Prios, ord0: seq<int>, pr: Prios,
                  accessed: set<int>, acc: set<int>, n: nat)
    requires n < |ord0| && Pass(t, h, pr0, ord0, pr, accessed, acc, n)
    ensures Order(pr0, ord0) && Heap(t) && multiset(t) == multiset(Items(pr0, ord0[n..]))
    ensures Holds(h, pr, Sweep(ord0, accessed, n)) && pr.Keys == pr0.Keys
    ensures forall p :: p in pr ==> 0 <= pr[p] < WORD - 1
  {
  }

  lemma PassMember(pr: Prios, ord: seq<int>, n: nat)
    requires Order(pr, ord) && n < |ord|
    ensures ord[n] in pr
  {
  }

  lemma PassKept(t: seq<HeapP>, t': seq<HeapP>, h: seq<HeapP>, pr0: Prios, ord0: seq<int>, pr: Prios,
                 accessed: set<int>, acc: set<int>, n: nat, x: HeapP)
    requires n < |ord0| && Pass(t, h, pr0, ord0, pr, accessed, acc, n)
    requires x in multiset(t) && AtMost(x.priority, multiset(t))
    requires Heap(t') && multiset(t') == multiset(t) - multiset{x} && x.index !in acc
    ensures Pass(t', h, pr0, ord0, pr, accessed, acc, n + 1)
  {
    hide Order, Items, Heap, Keep, Sweep, Holds;
    NextPage(t, pr0, ord0, n, x);
    SweepStep(ord0, accessed, n);
    Taken(ord0, n);
  }

  lemma PassPromoted(t: seq<HeapP>, t': seq<HeapP>, h: seq<HeapP>, h': seq<HeapP>, pr0: Prios, ord0: seq<int>,
                     pr: Prios, prio: int, accessed: set<int>, acc: set<int>, n: nat, x: HeapP)
    requires n < |ord0| && Pass(t, h, pr0, ord0, pr, accessed, acc, n)
    requires x in multiset(t) && AtMost(x.priority, multiset(t))
    requires Heap(t') && multiset(t') == multiset(t) - multiset{x} && x.index in acc
    requires var k := |Keep(ord0[..n], accessed, false)|;
             k < |Sweep(ord0, accessed, n)| && Holds(h', pr[x.index := prio], ToBack(Sweep(ord0, accessed, n), k))
    requires exists p :: p in pr && prio == pr[p] + 1
    ensures Pass(t', h', pr0, ord0, pr[x.index := prio], accessed, acc - {x.index}, n + 1)
  {
    hide Order, Items, Heap, Keep, Sweep, Holds;
    NextPage(t, pr0, ord0, n, x);
    SweepStep(ord0, accessed, n);
    Taken(ord0, n);
    PassMember(pr0, ord0, n);
    assert pr[x.index := prio].Keys == pr.Keys;
  }

  lemma Taken(ord: seq<int>, n: nat)
    requires n < |ord|
    ensures forall p :: p in ord[..n + 1] <==> p in ord[..n] || p == ord[n]
  {
    assert ord[..n + 1] == ord[..n] + [ord[n]];
  }

  /** The copy updatePagesInPriorityQueue works through. */
  method CopyHeap(a: array<HeapP>, size: nat) returns (temp: array<HeapP>)
    requires size <= a.Length
    ensures fresh(temp) && temp.Length == size && temp[..size] == a[..size]
  {
    temp := new HeapP[size](_ => NONE);
    for i := 0 to size
      invariant forall k :: 0 <= k < i ==> temp[k] == a[k]
    {
      temp[i] := a[i];
    }
  }

  /** updatePagesInPriorityQueue: afterwards the eviction order is the pages not
      accessed, in their old order, followed by the accessed ones, in theirs; the heap
      holds the same pages and every accessed bit is clear. */
  method UpdatePages(a: array<HeapP>, size: nat, accessed: set<int>, ghost pr0: Prios, ghost ord0: seq<int>)
    returns (accessed': set<int>, ghost pr: Prios)
    requires size <= a.Length && Holds(a[..size], pr0, ord0)
    requires forall p :: p in pr0 ==> 0 <= pr0[p] && pr0[p] + size < WORD
    modifies a
    ensures pr.Keys == pr0.Keys
    ensures Holds(a[..size], pr, Keep(ord0, accessed, false) + Keep(ord0, accessed, true))
    ensures forall p :: p in accessed' <==> p in accessed && p !in pr0
  {
    hide *;
    var temp := CopyHeap(a, size);
    HoldsSize(a[..size], pr0, ord0);
    pr, accessed' := pr0, accessed;
    PassStart(a[..size], pr0, ord0, accessed);
    var left := size;
    ghost var n := 0;
    while left > 0
      invariant 0 <= n <= |ord0| == size && left == size - n
      invariant Pass(temp[..left], a[..size], pr0, ord0, pr, accessed, accessed', n)
    {
      accessed', pr := UpdateNext(temp, left, a, size, pr0, ord0, pr, accessed, accessed', n);
      left, n := left - 1, n + 1;
    }
    PassEnd(temp[..left], a[..size], pr0, ord0, pr, accessed, accessed');
  }

  lemma PassEnd(t: seq<HeapP>, h: seq<HeapP>, pr0: Prios, ord0: seq<int>, pr: Prios, accessed: set<int>, acc: set<int>)
    requires Pass(t, h, pr0, ord0, pr, accessed, acc, |ord0|)
    ensures Holds(h, pr, Keep(ord0, accessed, false) + Keep(ord0, accessed, true))
    ensures pr.Keys == pr0.Keys && forall p :: p in acc <==> p in accessed && p !in pr0
  {
    SweepEnd(ord0, accessed);
    assert ord0[..|ord0|] == ord0;
  }

  lemma PassStart(t: seq<HeapP>, pr: Prios, ord: seq<int>, accessed: set<int>)
    requires Holds(t, pr, ord) && |ord| == |t| && forall p :: p in pr ==> 0 <= pr[p] && pr[p] + |t| < WORD
    ensures Pass(t, t, pr, ord, pr, accessed, accessed, 0)
  {
    SweepStart(ord, accessed);
    assert ord[0..] == ord;
  }
}
