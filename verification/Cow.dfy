/** Copy-on-write address spaces (vm.c, in the build without paging): page tables that
    share frames, against the memory each process would see had fork copied eagerly. */
module CopyOnWrite {
  import opened Basics
  import opened Kalloc

  const PGSIZE := 4096

  type Page = seq<int>

  /** Page vpn of process pid. */
  datatype Slot = Slot(pid: int, vpn: int)

  /** A present page-table entry: frame, PTE_W, PTE_U, PTE_COW. */
  datatype Pte = Pte(frame: int, w: bool, u: bool, cow: bool)

  type PageTables = map<Slot, Pte>

  function Filled(v: int): (p: Page)
    ensures |p| == PGSIZE
  {
    seq(PGSIZE, _ => v)
  }

  /** The entries that map frame f. */
  function Mappers(pt: PageTables, f: int): set<Slot> {
    set s | s in pt && pt[s].frame == f
  }

  /** Reference counts, frame contents and all page tables. To say who shares a page with
      whom without naming frames, `ids` gives every page that a frame is filled with a
      number of its own, the next one not used yet. */
  datatype Mem = Mem(refs: seq<int>, data: seq<Page>, pt: PageTables, ids: seq<int>, next: int)

  /** Each frame's count is the number of entries mapping it; a writable entry is the
      only one mapping its frame; an entry is read-only exactly when it is marked
      copy-on-write; different frames in use have different numbers. */
  predicate Inv(x: Mem, managed: set<int>) {
    Shape(x, managed) && Counts(x.refs, x.pt, managed) && Flags(x.refs, x.pt) && Names(x.pt, x.ids, x.next)
  }

  predicate Names(pt: PageTables, ids: seq<int>, next: int) {
    && (forall s :: s in pt ==> 0 <= pt[s].frame < |ids| && ids[pt[s].frame] < next)
    && (forall s, t :: s in pt && t in pt && ids[pt[s].frame] == ids[pt[t].frame] ==> pt[s].frame == pt[t].frame)
  }

  predicate Shape(x: Mem, managed: set<int>) {
    && |x.refs| == |x.data| == |x.ids| == MAXPAGES
    && (forall f :: 0 <= f < MAXPAGES ==> |x.data[f]| == PGSIZE)
    && (forall f :: f in managed ==> 0 <= f < MAXPAGES)
    && (forall s :: s in x.pt ==> x.pt[s].frame in managed)
  }

  predicate Counts(refs: seq<int>, pt: PageTables, managed: set<int>) {
    forall f :: f in managed ==> 0 <= f < |refs| && refs[f] == |Mappers(pt, f)|
  }

  predicate Flags(refs: seq<int>, pt: PageTables) {
    forall s :: s in pt ==> pt[s].w == !pt[s].cow && (pt[s].w ==> 0 <= pt[s].frame < |refs| && refs[pt[s].frame] == 1)
  }

  /** A page as its process sees it, contents and whether user code may touch it, and the
      number of the page. */
  datatype Cell = Cell(page: Page, user: bool, id: int)
  type Memory = map<Slot, Cell>

  /** What every process sees: the page behind each mapped slot. */
  function View(x: Mem): Memory {
    map s | s in x.pt :: CellOf(x, x.pt[s])
  }

  function CellOf(x: Mem, e: Pte): Cell {
    if 0 <= e.frame < |x.data| && e.frame < |x.ids| then Cell(x.data[e.frame], e.u, x.ids[e.frame])
    else Cell([], e.u, 0)
  }

  // ---------------------------------------------------------------- counting entries

  lemma MappersAdd(pt: PageTables, s: Slot, e: Pte, f: int)
    requires s !in pt
    ensures |Mappers(pt[s := e], f)| == |Mappers(pt, f)| + if e.frame == f then 1 else 0
  {
    assert Mappers(pt[s := e], f) == if e.frame == f then Mappers(pt, f) + {s} else Mappers(pt, f);
  }

  lemma MappersRemove(pt: PageTables, s: Slot, f: int)
    requires s in pt
    ensures |Mappers(pt - {s}, f)| == |Mappers(pt, f)| - if pt[s].frame == f then 1 else 0
  {
    assert Mappers(pt - {s}, f) == Mappers(pt, f) - {s};
  }

  lemma MappersFlags(pt: PageTables, s: Slot, e: Pte, f: int)
    requires s in pt && pt[s].frame == e.frame
    ensures Mappers(pt[s := e], f) == Mappers(pt, f)
  {
    assert forall t :: t in Mappers(pt[s := e], f) <==> t in Mappers(pt, f);
  }

  /** A new entry is one more reference to its frame. */
  lemma MapCounts(refs: seq<int>, pt: PageTables, managed: set<int>, s: Slot, e: Pte)
    requires Counts(refs, pt, managed) && s !in pt && e.frame in managed
    ensures Counts(refs[e.frame := refs[e.frame] + 1], pt[s := e], managed)
  {
    forall g | g in managed
      ensures refs[e.frame := refs[e.frame] + 1][g] == |Mappers(pt[s := e], g)|
    {
      MappersAdd(pt, s, e, g);
    }
  }

  lemma UnmapCounts(refs: seq<int>, pt: PageTables, managed: set<int>, s: Slot)
    requires Counts(refs, pt, managed) && s in pt && pt[s].frame in managed
    ensures Counts(refs[pt[s].frame := refs[pt[s].frame] - 1], pt - {s}, managed)
    ensures refs[pt[s].frame] >= 1
  {
    assert s in Mappers(pt, pt[s].frame);
    forall g | g in managed
      ensures refs[pt[s].frame := refs[pt[s].frame] - 1][g] == |Mappers(pt - {s}, g)|
    {
      MappersRemove(pt, s, g);
    }
  }

  lemma FlagCounts(refs: seq<int>, pt: PageTables, managed: set<int>, s: Slot, e: Pte)
    requires Counts(refs, pt, managed) && s in pt && e.frame == pt[s].frame
    ensures Counts(refs, pt[s := e], managed)
  {
    forall g | g in managed
      ensures refs[g] == |Mappers(pt[s := e], g)|
    {
      MappersFlags(pt, s, e, g);
    }
  }

  lemma NoMappers(refs: seq<int>, managed: set<int>)
    requires forall f :: f in managed ==> 0 <= f < |refs| && refs[f] == 0
    ensures Counts(refs, map[], managed)
  {
    forall f | f in managed
      ensures refs[f] == |Mappers(map[], f)|
    {
      assert Mappers(map[], f) == {};
    }
  }

  /** A frame counted once is mapped once. */
  lemma Alone(refs: seq<int>, pt: PageTables, managed: set<int>, s: Slot)
    requires Counts(refs, pt, managed) && s in pt && pt[s].frame in managed && refs[pt[s].frame] == 1
    ensures forall t :: t in pt && t != s ==> pt[t].frame != pt[s].frame
  {
    forall t | t in pt && t != s
      ensures pt[t].frame != pt[s].frame
    {
      if pt[t].frame == pt[s].frame {
        assert |{s, t}| == 2;
        CardSubset({s, t}, Mappers(pt, pt[s].frame));
      }
    }
  }

  /** A frame counted zero times is mapped nowhere. */
  lemma Unmappable(refs: seq<int>, pt: PageTables, managed: set<int>, f: int)
    requires Counts(refs, pt, managed) && f in managed && refs[f] == 0
    ensures forall t :: t in pt ==> pt[t].frame != f
  {
    forall t | t in pt
      ensures pt[t].frame != f
    {
      assert t in Mappers(pt, pt[t].frame);
    }
  }

  // ---------------------------------------------------------------- free frames

  /** The managed frames below n that nobody references. */
  function FreeBelow(refs: seq<int>, managed: set<int>, n: nat): nat
    requires n <= |refs|
  {
    if n == 0 then 0 else FreeBelow(refs, managed, n - 1) + if n - 1 in managed && refs[n - 1] == 0 then 1 else 0
  }

  function FreeFrames(refs: seq<int>, managed: set<int>): nat {
    FreeBelow(refs, managed, |refs|)
  }

  lemma {:induction false} NoneBelow(refs: seq<int>, managed: set<int>, n: nat)
    requires n <= |refs|
    ensures FreeBelow(refs, managed, n) == 0 <==> forall f :: 0 <= f < n && f in managed ==> refs[f] != 0
  {
    if n == 0 {
    } else {
      NoneBelow(refs, managed, n - 1);
    }
  }

  lemma {:induction false} RecountBelow(refs: seq<int>, managed: set<int>, f: nat, c: int, n: nat)
    requires f < |refs| && f in managed && n <= |refs|
    ensures FreeBelow(refs[f := c], managed, n) == FreeBelow(refs, managed, n)
              + (if f < n && c == 0 then 1 else 0) - (if f < n && refs[f] == 0 then 1 else 0)
  {
    if n == 0 {
    } else {
      RecountBelow(refs, managed, f, c, n - 1);
    }
  }

  lemma Recount(refs: seq<int>, managed: set<int>, f: nat, c: int)
    requires f < |refs| && f in managed
    ensures FreeFrames(refs[f := c], managed) ==
      FreeFrames(refs, managed) + (if c == 0 then 1 else 0) - (if refs[f] == 0 then 1 else 0)
  {
    RecountBelow(refs, managed, f, c, |refs|);
  }

  // ---------------------------------------------------------------- elementary steps

  /** The free frame f is given the contents `page` and mapped at s with the flags of e. */
  function MapNew(x: Mem, f: int, s: Slot, page: Page, e: Pte): Mem
    requires 0 <= f < |x.refs| == |x.data| == |x.ids|
  {
    Mem(x.refs[f := 1], x.data[f := page], x.pt[s := e.(frame := f)], x.ids[f := x.next], x.next + 1)
  }

  lemma NewName(pt: PageTables, ids: seq<int>, next: int, s: Slot, e: Pte)
    requires Names(pt, ids, next) && 0 <= e.frame < |ids| && forall t :: t in pt && t != s ==> pt[t].frame != e.frame
    ensures Names(pt[s := e], ids[e.frame := next], next + 1)
  {
  }

  lemma MapNewInv(x: Mem, managed: set<int>, f: int, s: Slot, page: Page, e: Pte)
    requires Inv(x, managed) && f in managed && x.refs[f] == 0 && s !in x.pt && |page| == PGSIZE && e.w == !e.cow
    ensures Inv(MapNew(x, f, s, page, e), managed)
    ensures View(MapNew(x, f, s, page, e)) == View(x)[s := Cell(page, e.u, x.next)]
  {
    hide Counts, View, Names;
    MapCounts(x.refs, x.pt, managed, s, e.(frame := f));
    Unmappable(x.refs, x.pt, managed, f);
    NewName(x.pt, x.ids, x.next, s, e.(frame := f));
    MapNewView(x, f, s, page, e);
  }

  lemma MapNewView(x: Mem, f: int, s: Slot, page: Page, e: Pte)
    requires 0 <= f < |x.refs| == |x.data| == |x.ids| && forall t :: t in x.pt ==> x.pt[t].frame != f
    ensures View(MapNew(x, f, s, page, e)) == View(x)[s := Cell(page, e.u, x.next)]
  {
  }

  /** One turn of cowuvm: the parent's entry becomes read-only and copy-on-write, the
      child gets the same entry, and the frame gains a reference. */
  function Shared(x: Mem, p: Slot, c: Slot): Mem
    requires p in x.pt && 0 <= x.pt[p].frame < |x.refs|
  {
    var e := x.pt[p].(w := false, cow := true);
    x.(refs := x.refs[e.frame := x.refs[e.frame] + 1], pt := x.pt[p := e][c := e])
  }

  lemma SharedNames(pt: PageTables, ids: seq<int>, next: int, p: Slot, c: Slot, e: Pte)
    requires Names(pt, ids, next) && p in pt && e.frame == pt[p].frame
    ensures Names(pt[p := e][c := e], ids, next)
  {
    var pt' := pt[p := e][c := e];
    forall s | s in pt' ensures pt'[s].frame == pt[if s == c || s == p then p else s].frame {
    }
  }

  lemma SharedFlags(x: Mem, managed: set<int>, p: Slot, c: Slot)
    requires Inv(x, managed) && p in x.pt && c !in x.pt
    ensures Flags(Shared(x, p, c).refs, Shared(x, p, c).pt)
  {
    hide Names;
    var f := x.pt[p].frame;
    forall t | t in x.pt && x.pt[t].w && t != p
      ensures x.pt[t].frame != f
    {
      Alone(x.refs, x.pt, managed, t);
    }
  }

  lemma SharedInv(x: Mem, managed: set<int>, p: Slot, c: Slot)
    requires Inv(x, managed) && p in x.pt && c !in x.pt
    ensures Inv(Shared(x, p, c), managed)
  {
    hide Names, Counts, Flags;
    var e := x.pt[p].(w := false, cow := true);
    FlagCounts(x.refs, x.pt, managed, p, e);
    MapCounts(x.refs, x.pt[p := e], managed, c, e);
    SharedFlags(x, managed, p, c);
    SharedNames(x.pt, x.ids, x.next, p, c, e);
  }

  lemma SharedView(x: Mem, managed: set<int>, p: Slot, c: Slot)
    requires Shape(x, managed) && p in x.pt && c !in x.pt
    ensures View(Shared(x, p, c)) == View(x)[c := View(x)[p]]
  {
  }

  /** onPageFaultCow on a shared frame: copy it to the free frame f. */
  function Copied(x: Mem, s: Slot, f: int): Mem
    requires s in x.pt && 0 <= x.pt[s].frame < |x.refs| == |x.data| == |x.ids| && 0 <= f < |x.refs|
  {
    var e := x.pt[s];
    Mem(x.refs[e.frame := x.refs[e.frame] - 1][f := 1], x.data[f := x.data[e.frame]],
        x.pt[s := e.(frame := f, w := true, cow := false)], x.ids[f := x.next], x.next + 1)
  }

  lemma CopiedCounts(x: Mem, managed: set<int>, s: Slot, f: int)
    requires Inv(x, managed) && s in x.pt && x.refs[x.pt[s].frame] > 1 && f in managed && x.refs[f] == 0
    ensures Counts(Copied(x, s, f).refs, Copied(x, s, f).pt, managed)
  {
    var e, e' := x.pt[s], x.pt[s].(frame := f, w := true, cow := false);
    UnmapCounts(x.refs, x.pt, managed, s);
    MapCounts(x.refs[e.frame := x.refs[e.frame] - 1], x.pt - {s}, managed, s, e');
    assert x.pt[s := e'] == (x.pt - {s})[s := e'];
  }

  lemma CopiedInv(x: Mem, managed: set<int>, s: Slot, f: int)
    requires Inv(x, managed) && s in x.pt && x.refs[x.pt[s].frame] > 1 && f in managed && x.refs[f] == 0
    ensures Inv(Copied(x, s, f), managed)
    ensures s in View(x) && View(Copied(x, s, f)) == View(x)[s := View(x)[s].(id := x.next)]
  {
    hide Counts, View, Names;
    CopiedCounts(x, managed, s, f);
    Unmappable(x.refs, x.pt, managed, f);
    NewName(x.pt, x.ids, x.next, s, x.pt[s].(frame := f, w := true, cow := false));
    CopiedView(x, managed, s, f);
  }

  lemma CopiedView(x: Mem, managed: set<int>, s: Slot, f: int)
    requires Shape(x, managed) && s in x.pt && f in managed && forall q :: q in x.pt ==> x.pt[q].frame != f
    ensures s in View(x) && View(Copied(x, s, f)) == View(x)[s := View(x)[s].(id := x.next)]
  {
  }

  /** onPageFaultCow on the last reference: make the entry writable. */
  function Reclaimed(x: Mem, s: Slot): Mem
    requires s in x.pt
  {
    x.(pt := x.pt[s := x.pt[s].(w := true, cow := false)])
  }

  lemma ReclaimedInv(x: Mem, managed: set<int>, s: Slot)
    requires Inv(x, managed) && s in x.pt && x.refs[x.pt[s].frame] == 1
    ensures Inv(Reclaimed(x, s), managed)
  {
    FlagCounts(x.refs, x.pt, managed, s, x.pt[s].(w := true, cow := false));
  }

  lemma ReclaimedView(x: Mem, s: Slot)
    requires s in x.pt
    ensures View(Reclaimed(x, s)) == View(x)
  {
  }

  /** One page of deallocuvm: one reference less; the last one also frees the frame,
      which kfree fills with junk. */
  function Unmapped(x: Mem, s: Slot): Mem
    requires s in x.pt && 0 <= x.pt[s].frame < |x.refs| == |x.data|
  {
    var f := x.pt[s].frame;
    x.(refs := x.refs[f := x.refs[f] - 1], data := if x.refs[f] == 1 then x.data[f := Filled(1)] else x.data,
       pt := x.pt - {s})
  }

  /** The fault on s must copy a shared page, and no frame is free. */
  predicate Starves(x: Mem, managed: set<int>, s: Slot) {
    && s in x.pt && x.pt[s].cow && 0 <= x.pt[s].frame < |x.refs| && x.refs[x.pt[s].frame] > 1
    && FreeFrames(x.refs, managed) == 0
  }

  function CountDropped(x: Mem, s: Slot): Mem
    requires s in x.pt && 0 <= x.pt[s].frame < |x.refs|
  {
    x.(refs := x.refs[x.pt[s].frame := x.refs[x.pt[s].frame] - 1])
  }

  /** A count that is dropped while the entry stays is wrong. */
  lemma DroppedNotInv(x: Mem, managed: set<int>, s: Slot)
    requires Inv(x, managed) && s in x.pt
    ensures !Inv(CountDropped(x, s), managed)
  {
    assert x.pt[s].frame in managed;
  }

  /** Some other entry names the same page. */
  ghost predicate Doubled(mem: Memory, s: Slot) {
    s in mem && exists t :: t in mem && t != s && mem[t].id == mem[s].id
  }

  /** The entry gets its own copy of a page it shares. */
  ghost function Unshared(mem: Memory, s: Slot, next: int): Memory
    requires s in mem
  {
    if Doubled(mem, s) then mem[s := mem[s].(id := next)] else mem
  }

  /** What a store makes of all memories and of the next number. */
  ghost predicate Stores(mem: Memory, next: int, s: Slot, off: int, v: int, mem': Memory, next': int) {
    if s !in mem then mem' == mem && next' == next
    else
      && next' == next + (if Doubled(mem, s) then 1 else 0)
      && 0 <= off && mem' == PokedBy(mem, s, off, v, next)
  }

  lemma SizedKeys(mem: Memory, mem': Memory, sz: map<int, int>)
    requires Sized(mem, sz) && forall s :: s in mem <==> s in mem'
    ensures Sized(mem', sz)
  {
  }

  lemma SizedStores(mem: Memory, next: int, s: Slot, off: int, v: int, mem': Memory, next': int, sz: map<int, int>)
    requires Sized(mem, sz) && Stores(mem, next, s, off, v, mem', next')
    ensures Sized(mem', sz)
  {
    hide Doubled, Sized;
    SizedKeys(mem, mem', sz);
  }

  /** The count of a frame tells whether its page is shared. */
  lemma DoubledIff(x: Mem, managed: set<int>, s: Slot)
    requires Inv(x, managed) && s in x.pt
    ensures x.refs[x.pt[s].frame] >= 1 && (Doubled(View(x), s) <==> x.refs[x.pt[s].frame] > 1)
    ensures x.refs[x.pt[s].frame] > 1 ==> x.pt[s].cow
  {
    var f := x.pt[s].frame;
    assert s in Mappers(x.pt, f);
    if x.refs[f] == 1 {
      Alone(x.refs, x.pt, managed, s);
    }
    if forall t :: t in x.pt && t != s ==> x.pt[t].frame != f {
      assert Mappers(x.pt, f) == {s};
    } else {
      var t :| t in x.pt && t != s && x.pt[t].frame == f;
      assert View(x)[t].id == View(x)[s].id;
    }
  }

  /** How a user access ends: done; killed for want of a page; killed for want of a frame. */
  datatype Access = Done | Killed | Starved

  lemma UnmappedInv(x: Mem, managed: set<int>, s: Slot)
    requires Inv(x, managed) && s in x.pt
    ensures x.refs[x.pt[s].frame] >= 1 && Inv(Unmapped(x, s), managed)
  {
    UnmapCounts(x.refs, x.pt, managed, s);
    if x.refs[x.pt[s].frame] == 1 {
      Alone(x.refs, x.pt, managed, s);
    }
  }

  lemma UnmappedView(x: Mem, managed: set<int>, s: Slot)
    requires Inv(x, managed) && s in x.pt
    ensures View(Unmapped(x, s)) == View(x) - {s}
  {
    hide Names, Flags;
    if x.refs[x.pt[s].frame] == 1 {
      Alone(x.refs, x.pt, managed, s);
    }
  }

  /** One byte of a process's memory changed. */
  function Poked(mem: Memory, s: Slot, off: int, v: int): Memory
    requires s in mem && 0 <= off < |mem[s].page|
  {
    mem[s := mem[s].(page := mem[s].page[off := v])]
  }

  function Stored(x: Mem, s: Slot, off: int, v: int): Mem
    requires s in x.pt && 0 <= x.pt[s].frame < |x.data| && 0 <= off < |x.data[x.pt[s].frame]|
  {
    var f := x.pt[s].frame;
    x.(data := x.data[f := x.data[f][off := v]])
  }

  lemma StoredInv(x: Mem, managed: set<int>, s: Slot, off: int, v: int)
    requires Inv(x, managed) && s in x.pt && x.pt[s].w && 0 <= off < PGSIZE
    ensures Inv(Stored(x, s, off, v), managed)
    ensures View(Stored(x, s, off, v)) == Poked(View(x), s, off, v)
  {
    hide Names;
    Alone(x.refs, x.pt, managed, s);
  }

  // ---------------------------------------------------------------- eager specification

  /** Whether fork copies: the numbers its pages get from then on, or none. */
  datatype Way = Sharing | Copying(next: int)

  /** The child's page v, when the parent's is c. */
  function Child(c: Cell, way: Way, v: int): Cell {
    if way.Sharing? then c else c.(id := way.next + v)
  }

  /** The child gets the parent's first n pages, or copies of them. */
  function Forked(mem: Memory, parent: int, child: int, n: nat, way: Way): Memory
    requires forall v :: 0 <= v < n ==> Slot(parent, v) in mem
    decreases n
  {
    if n == 0 then mem
    else
      Forked(mem, parent, child, n - 1, way)[Slot(child, n - 1) := Child(mem[Slot(parent, n - 1)], way, n - 1)]
  }

  /** n zeroed user pages appended at page `from` of process pid, numbered from next on. */
  function Grown(mem: Memory, pid: int, from: int, n: nat, next: int): Memory
    decreases n
  {
    if n == 0 then mem
    else Grown(mem, pid, from, n - 1, next)[Slot(pid, from + n - 1) := Cell(Filled(0), true, next + n - 1)]
  }

  lemma {:induction false} ForkedAt(mem: Memory, parent: int, child: int, n: nat, way: Way, s: Slot)
    requires forall v :: 0 <= v < n ==> Slot(parent, v) in mem
    ensures s in Forked(mem, parent, child, n, way) <==> s in mem || (s.pid == child && 0 <= s.vpn < n)
    ensures s in Forked(mem, parent, child, n, way) ==>
            Forked(mem, parent, child, n, way)[s] ==
            if s.pid == child && 0 <= s.vpn < n then Child(mem[Slot(parent, s.vpn)], way, s.vpn) else mem[s]
    decreases n
  {
    if n == 0 {
    } else {
      ForkedAt(mem, parent, child, n - 1, way, s);
    }
  }

  /** Every address space is its pages 0 .. sz - 1. */
  ghost predicate Sized(mem: Memory, sz: map<int, int>) {
    && (forall s :: s in mem ==> s.pid in sz && 0 <= s.vpn < sz[s.pid])
    && (forall p, v :: p in sz && 0 <= v < sz[p] ==> Slot(p, v) in mem)
    && (forall p :: p in sz ==> sz[p] >= 0)
  }

  lemma SizedAt(mem: Memory, sz: map<int, int>, pid: int)
    requires Sized(mem, sz) && pid in sz
    ensures sz[pid] >= 0 && (forall v :: 0 <= v < sz[pid] ==> Slot(pid, v) in mem)
    ensures forall s :: s in mem && s.pid == pid ==> 0 <= s.vpn < sz[pid]
    ensures forall c :: c !in sz ==> c != pid && Forkable(mem, pid, c, sz[pid])
  {
  }

  lemma SizedSpawned(mem: Memory, sz: map<int, int>, pid: int)
    requires Sized(mem, sz) && pid !in sz
    ensures Sized(mem, sz[pid := 0])
  {
  }

  lemma SizedGrown(mem: Memory, sz: map<int, int>, pid: int, n: nat, next: int)
    requires Sized(mem, sz) && pid in sz
    ensures Sized(Grown(mem, pid, sz[pid], n, next), sz[pid := sz[pid] + n])
  {
    forall s
      ensures s in Grown(mem, pid, sz[pid], n, next) <==> s in mem || (s.pid == pid && sz[pid] <= s.vpn < sz[pid] + n)
    {
      GrownAt(mem, pid, sz[pid], n, next, s);
    }
  }

  lemma SizedForked(mem: Memory, sz: map<int, int>, parent: int, child: int, way: Way)
    requires Sized(mem, sz) && parent in sz && child !in sz
    ensures sz[parent] >= 0 && (forall v :: 0 <= v < sz[parent] ==> Slot(parent, v) in mem)
    ensures Sized(Forked(mem, parent, child, sz[parent], way), sz[child := sz[parent]])
  {
    SizedAt(mem, sz, parent);
    forall s
      ensures s in Forked(mem, parent, child, sz[parent], way) <==>
        s in mem || (s.pid == child && 0 <= s.vpn < sz[parent])
    {
      ForkedAt(mem, parent, child, sz[parent], way, s);
    }
  }

  lemma SizedDropped(mem: Memory, sz: map<int, int>, pid: int, n: int)
    requires Sized(mem, sz) && pid in sz && 0 <= n <= sz[pid]
    ensures Sized(Dropped(mem, pid, n, sz[pid]), sz[pid := n])
    ensures n == 0 ==> Sized(Dropped(mem, pid, n, sz[pid]), sz - {pid})
    ensures n == 0 ==> forall s :: s in Dropped(mem, pid, n, sz[pid]) ==> s.pid != pid
  {
  }

  /** The address spaces of all processes over the frame allocator, whose counts are those
      in x. */
  class Vm {
    const kmem: Kmem
    ghost const managed: set<int>
    var x: Mem
    /** The size of each address space, in pages. */
    var sz: map<int, int>

    ghost predicate Ok()
      reads this, kmem
    {
      Inv(x, managed) && kmem.Valid() && kmem.managed == managed && kmem.refs == x.refs
    }

    ghost predicate Valid()
      reads this, kmem
    {
      Ok() && Sized(View(x), sz)
    }

    constructor (kmem: Kmem)
      requires kmem.Valid() && AllZero(kmem.refs)
      ensures Valid() && this.kmem == kmem && managed == kmem.managed
      ensures View(x) == map[] && sz == map[] && x.next == 0
    {
      this.kmem, managed := kmem, kmem.managed;
      x := Mem(kmem.refs, seq(MAXPAGES, _ => Filled(0)), map[], seq(MAXPAGES, _ => 0), 0);
      sz := map[];
      new;
      NoMappers(x.refs, managed);
    }

    /** The free list is empty exactly when every managed frame is referenced. */
    lemma ListEmpty()
      requires Ok()
      ensures kmem.freelist == -1 <==> FreeFrames(x.refs, managed) == 0
      ensures kmem.freelist == -1 <==> kmem.free == []
    {
      hide Inv, Chain;
      ChainHead();
      NoneBelow(x.refs, managed, |x.refs|);
      if kmem.free != [] {
        assert kmem.free[0] in managed && x.refs[kmem.free[0]] == 0;
      }
    }

    lemma ChainHead()
      requires kmem.Valid()
      ensures kmem.freelist == -1 <==> kmem.free == []
    {
    }

    /** kalloc: some managed frame nobody references, which then has one reference; -1 is
        the null pointer. */
    method KallocFrame() returns (f: int)
      requires kmem.Valid() && |kmem.refs| == MAXPAGES
      modifies kmem
      ensures kmem.Valid() && kmem.managed == old(kmem.managed)
      ensures f == -1 <==> old(kmem.free) == []
      ensures f == -1 ==> kmem.refs == old(kmem.refs)
      ensures f != -1 ==> f in kmem.managed && 0 <= f < MAXPAGES && old(kmem.refs)[f] == 0
      ensures f != -1 ==> kmem.refs == old(kmem.refs)[f := 1]
    {
      f := kmem.KallocFrame();
    }

    /** kalloc, memset or memmove, mappages: one new page at s, with the flags of e; false,
        and no change, exactly when no frame is free. */
    method MapPage(s: Slot, page: Page, e: Pte) returns (ok: bool)
      requires Ok() && s !in x.pt && |page| == PGSIZE && e.w == !e.cow
      modifies kmem, this`x
      ensures Ok()
      ensures ok <==> FreeFrames(old(x).refs, managed) > 0
      ensures ok ==> View(x) == View(old(x))[s := Cell(page, e.u, old(x).next)] && x.next == old(x).next + 1
      ensures ok ==> FreeFrames(x.refs, managed) == FreeFrames(old(x).refs, managed) - 1
      ensures !ok ==> x == old(x)
    {
      hide Kmem.Valid, Counts, Flags, Names, View, FreeFrames;
      ListEmpty();
      var f := KallocFrame();
      if f == -1 {
        return false;
      }
      MapNewInv(x, managed, f, s, page, e);
      Recount(x.refs, managed, f, 1);
      x := Mem(kmem.refs, x.data[f := page], x.pt[s := e.(frame := f)], x.ids[f := x.next], x.next + 1);
      return true;
    }

    /** One turn of cowuvm's loop. */
    method ShareEntry(p: Slot, c: Slot)
      requires Ok() && p in x.pt && c !in x.pt
      modifies kmem, this`x
      ensures Ok() && View(x) == View(old(x))[c := View(old(x))[p]] && x.next == old(x).next
    {
      hide Kmem.Valid, Counts, Flags, Names, View;
      EntryOk(p);
      SharedInv(x, managed, p, c);
      SharedView(x, managed, p, c);
      var e := x.pt[p];
      if e.w {
        e := e.(w := false);
      }
      e := e.(cow := true);
      x := x.(pt := x.pt[p := e]);
      x := x.(pt := x.pt[c := e]);
      kmem.IncrementReferences(e.frame);
      x := x.(refs := kmem.refs);
    }

    lemma EntryOk(s: Slot)
      requires Ok() && s in x.pt
      ensures x.pt[s].frame in managed && 0 <= x.pt[s].frame < MAXPAGES && |x.refs| == |x.data| == |x.ids| == MAXPAGES
      ensures x.refs[x.pt[s].frame] >= 1 && |x.data[x.pt[s].frame]| == PGSIZE
      ensures kmem.first <= x.pt[s].frame < kmem.limit
    {
      UnmappedInv(x, managed, s);
    }

    /** One page of deallocuvm; kfree does not panic. */
    method UnmapPage(s: Slot)
      requires Ok() && s in x.pt
      modifies kmem, this`x
      ensures Ok() && View(x) == View(old(x)) - {s} && x.next == old(x).next
    {
      hide Kmem.Valid, Counts, Flags, Names, View;
      EntryOk(s);
      UnmappedInv(x, managed, s);
      UnmappedView(x, managed, s);
      var f := x.pt[s].frame;
      var prev := kmem.DecrementReferencesAndGetPrevVal(f);
      if prev == 1 {
        var freed := kmem.Kfree(f);
        assert freed;
        x := x.(data := x.data[f := Filled(1)]);
      }
      x := x.(refs := kmem.refs, pt := x.pt - {s});
    }

    /** onPageFaultCow: the entry becomes writable and nobody's memory changes.  Without a
        frame to copy a shared page to (ok is false, and the process is killed) the frame's
        count has already been dropped, and stays one below the number of entries. */
    method OnPageFaultCow(s: Slot) returns (ok: bool)
      requires Ok() && s in x.pt && x.pt[s].cow
      modifies kmem, this`x
      ensures ok <==> !Starves(old(x), managed, s)
      ensures ok ==> Ok() && s in x.pt && x.pt[s].w && s in View(old(x))
      ensures ok ==> View(x) == Unshared(View(old(x)), s, old(x).next)
      ensures ok ==> x.next == old(x).next + if Doubled(View(old(x)), s) then 1 else 0
      ensures !ok ==> x == CountDropped(old(x), s) && !Inv(x, managed)
    {
      hide Kmem.Valid, Counts, Flags, View, Names, Doubled, FreeFrames;
      var e := x.pt[s];
      ViewKeys(x);
      EntryOk(s);
      DoubledIff(x, managed, s);
      ListEmpty();
      var prev := kmem.DecrementReferencesAndGetPrevVal(e.frame);
      if prev > 1 {
        var f := KallocFrame();
        if f == -1 {
          DroppedNotInv(x, managed, s);
          x := x.(refs := kmem.refs);
          return false;
        }
        CopiedInv(x, managed, s, f);
        x := Mem(kmem.refs, x.data[f := x.data[e.frame]], x.pt[s := e.(frame := f, w := true, cow := false)],
                 x.ids[f := x.next], x.next + 1);
      } else {
        ReclaimedInv(x, managed, s);
        ReclaimedView(x, s);
        x := x.(pt := x.pt[s := e.(w := true, cow := false)]);
      }
      return true;
    }

    /** A user store of one byte, with the page fault it may take.  It succeeds exactly on
        mapped user pages, unless the copy it needs finds no frame, and changes the storing
        process's memory only. */
    method Store(s: Slot, off: int, v: int) returns (r: Access)
      requires Ok() && 0 <= off < PGSIZE
      modifies kmem, this`x
      ensures r.Starved? <==> Starves(old(x), managed, s)
      ensures r.Starved? ==> x == CountDropped(old(x), s) && !Inv(x, managed)
      ensures !r.Starved? ==> Ok() && (r.Done? <==> s in View(old(x)) && View(old(x))[s].user)
      ensures !r.Starved? ==> Stores(View(old(x)), old(x).next, s, off, v, View(x), x.next)
      ensures r.Done? ==> s in View(x) && off < |View(x)[s].page| && View(x)[s].page[off] == v
      ensures !r.Starved? ==> forall t, k ::
        t in View(old(x)) && 0 <= k < |View(old(x))[t].page| && !(r.Done? && t == s && k == off) ==>
        t in View(x) && k < |View(x)[t].page| && View(x)[t].page[k] == View(old(x))[t].page[k]
    {
      hide Kmem.Valid, FreeFrames, Doubled, Inv, View;
      ViewKeys(x);
      if s !in x.pt {
        return Killed;
      }
      DoubledIff(x, managed, s);
      PageAt(x, managed, s);
      if !(x.pt[s].w && x.pt[s].u) {
        if !x.pt[s].cow {
          return Killed;
        }
        var ok := OnPageFaultCow(s);
        if !ok {
          return Starved;
        }
        ViewKeys(x);
        PageAt(x, managed, s);
        if !x.pt[s].u {
          return Killed;
        }
      }
      StoredInv(x, managed, s, off, v);
      var f := x.pt[s].frame;
      x := x.(data := x.data[f := x.data[f][off := v]]);
      return Done;
    }

    /** cowuvm's loop over the parent's first n pages. */
    method ShareAll(parent: int, child: int, n: nat)
      requires Ok() && Forkable(View(x), parent, child, n)
      modifies kmem, this`x
      ensures Ok() && View(x) == Forked(View(old(x)), parent, child, n, Sharing) && x.next == old(x).next
    {
      hide Kmem.Valid, Inv, View;
      ghost var mem0 := View(x);
      var i := 0;
      while i < n
        invariant 0 <= i <= n && Ok() && x.next == old(x).next
        invariant View(x) == Forked(mem0, parent, child, i, Sharing)
      {
        ForkPoint(mem0, x, parent, child, n, i, Sharing);
        ShareEntry(Slot(parent, i), Slot(child, i));
        i := i + 1;
      }
    }

    /** copyuvm's loop; false, after `done` pages, exactly when fewer than n frames are free. */
    method CopyAll(parent: int, child: int, n: nat) returns (ok: bool, done: nat)
      requires Ok() && Forkable(View(x), parent, child, n)
      modifies kmem, this`x
      ensures done <= n && (ok ==> done == n)
      ensures ok <==> n <= FreeFrames(old(x).refs, managed)
      ensures Ok() && View(x) == Forked(View(old(x)), parent, child, done, Copying(old(x).next))
      ensures x.next == old(x).next + done
    {
      hide Kmem.Valid, Inv, View, FreeFrames;
      ghost var mem0, way := View(x), Copying(x.next);
      done := 0;
      while done < n
        invariant 0 <= done <= n && Ok() && x.next == old(x).next + done
        invariant View(x) == Forked(mem0, parent, child, done, way)
        invariant FreeFrames(x.refs, managed) == FreeFrames(old(x).refs, managed) - done
      {
        ForkPoint(mem0, x, parent, child, n, done, way);
        PageAt(x, managed, Slot(parent, done));
        var e := x.pt[Slot(parent, done)];
        ok := MapPage(Slot(child, done), x.data[e.frame], e);
        if !ok {
          return;
        }
        done := done + 1;
      }
      return true, n;
    }

    /** deallocuvm's loop over pages lo .. hi - 1, skipping what is not mapped. */
    method DropPages(pid: int, lo: int, hi: int)
      requires Ok() && lo <= hi
      modifies kmem, this`x
      ensures Ok() && View(x) == Dropped(View(old(x)), pid, lo, hi) && x.next == old(x).next
    {
      hide Kmem.Valid, Inv, View;
      ghost var mem0 := View(x);
      DroppedNothing(mem0, pid, lo);
      var a := lo;
      while a < hi
        invariant lo <= a <= hi && Ok() && View(x) == Dropped(mem0, pid, lo, a) && x.next == old(x).next
      {
        ghost var mem1 := View(x);
        ViewKeys(x);
        if Slot(pid, a) in x.pt {
          UnmapPage(Slot(pid, a));
        }
        DroppedStep(mem0, pid, lo, a, mem1, View(x));
        a := a + 1;
      }
    }

    /** allocuvm's loop; false, after `done` pages, exactly when fewer than n frames are free. */
    method GrowPages(pid: int, from: int, n: nat) returns (ok: bool, done: nat)
      requires Ok() && forall s :: s in View(x) && s.pid == pid ==> s.vpn < from
      modifies kmem, this`x
      ensures done <= n && (ok ==> done == n)
      ensures ok <==> n <= FreeFrames(old(x).refs, managed)
      ensures Ok() && View(x) == Grown(View(old(x)), pid, from, done, old(x).next)
      ensures x.next == old(x).next + done
    {
      hide Kmem.Valid, Inv, View, FreeFrames;
      ghost var mem0 := View(x);
      done := 0;
      while done < n
        invariant 0 <= done <= n && Ok() && x.next == old(x).next + done
        invariant View(x) == Grown(mem0, pid, from, done, old(x).next)
        invariant FreeFrames(x.refs, managed) == FreeFrames(old(x).refs, managed) - done
      {
        GrownAt(mem0, pid, from, done, old(x).next, Slot(pid, from + done));
        ViewKeys(x);
        ok := MapPage(Slot(pid, from + done), Filled(0), Pte(0, true, true, false));
        if !ok {
          return;
        }
        done := done + 1;
      }
      return true, n;
    }

    /** cowuvm: fork by sharing.  The result is what an eager copy gives. */
    method Cowuvm(parent: int, child: int)
      requires Valid() && parent in sz && child !in sz
      modifies kmem, this`x, this`sz
      ensures Valid() && sz == old(sz)[child := old(sz)[parent]] && x.next == old(x).next
      ensures View(x) == Forked(View(old(x)), parent, child, old(sz)[parent], Sharing)
    {
      hide Kmem.Valid, Inv, View, Sized;
      SizedAt(View(x), sz, parent);
      SizedForked(View(x), sz, parent, child, Sharing);
      ShareAll(parent, child, sz[parent]);
      sz := sz[child := sz[parent]];
    }

    /** copyuvm: fork by copying.  With fewer free frames than the parent has pages it
        fails and gives back what it had mapped. */
    method Copyuvm(parent: int, child: int) returns (ok: bool)
      requires Valid() && parent in sz && child !in sz
      modifies kmem, this`x, this`sz
      ensures Valid()
      ensures ok <==> old(sz)[parent] <= FreeFrames(old(x).refs, managed)
      ensures ok ==> sz == old(sz)[child := old(sz)[parent]] && x.next == old(x).next + old(sz)[parent]
      ensures ok ==> View(x) == Forked(View(old(x)), parent, child, old(sz)[parent], Copying(old(x).next))
      ensures !ok ==> sz == old(sz) && View(x) == View(old(x))
    {
      hide Kmem.Valid, Inv, View, Sized, FreeFrames;
      SizedAt(View(x), sz, parent);
      SizedForked(View(x), sz, parent, child, Copying(x.next));
      var done;
      ok, done := CopyAll(parent, child, sz[parent]);
      if ok {
        sz := sz[child := sz[parent]];
      } else {
        DropPages(child, 0, done);
        DroppedForked(View(old(x)), parent, child, sz[parent], done, Copying(old(x).next));
      }
    }

    /** allocuvm on n more pages; with fewer than n free frames it fails and undoes itself. */
    method Allocuvm(pid: int, n: nat) returns (ok: bool)
      requires Valid() && pid in sz
      modifies kmem, this`x, this`sz
      ensures Valid()
      ensures ok <==> n <= FreeFrames(old(x).refs, managed)
      ensures ok ==> sz == old(sz)[pid := old(sz)[pid] + n] && x.next == old(x).next + n
      ensures ok ==> View(x) == Grown(View(old(x)), pid, old(sz)[pid], n, old(x).next)
      ensures !ok ==> sz == old(sz) && View(x) == View(old(x))
    {
      hide Kmem.Valid, Inv, View, Sized, FreeFrames;
      SizedAt(View(x), sz, pid);
      SizedGrown(View(x), sz, pid, n, x.next);
      var from := sz[pid];
      var done;
      ok, done := GrowPages(pid, from, n);
      if ok {
        sz := sz[pid := from + n];
      } else {
        DropPages(pid, from, from + n);
        DroppedGrown(View(old(x)), pid, from, n, done, old(x).next);
      }
    }

    /** deallocuvm down to n pages. */
    method Deallocuvm(pid: int, n: int)
      requires Valid() && pid in sz && 0 <= n <= sz[pid]
      modifies kmem, this`x, this`sz
      ensures Valid() && sz == old(sz)[pid := n] && x.next == old(x).next
      ensures View(x) == Dropped(View(old(x)), pid, n, old(sz)[pid])
    {
      hide Kmem.Valid, Inv, View, Sized;
      SizedDropped(View(x), sz, pid, n);
      DropPages(pid, n, sz[pid]);
      sz := sz[pid := n];
    }

    /** exit and wait: freevm drops everything the process maps. */
    method Exit(pid: int)
      requires Valid() && pid in sz
      modifies kmem, this`x, this`sz
      ensures Valid() && sz == old(sz) - {pid} && x.next == old(x).next
      ensures View(x) == Dropped(View(old(x)), pid, 0, old(sz)[pid])
      ensures forall s :: s in View(x) ==> s.pid != pid
    {
      hide Kmem.Valid, Inv, View, Sized;
      SizedAt(View(x), sz, pid);
      SizedDropped(View(x), sz, pid, 0);
      DropPages(pid, 0, sz[pid]);
      sz := sz - {pid};
    }

    /** clearpteu. */
    method Clearpteu(s: Slot)
      requires Valid() && s in x.pt
      modifies this`x
      ensures Valid() && s in View(old(x)) && x.next == old(x).next
      ensures View(x) == View(old(x))[s := View(old(x))[s].(user := false)]
    {
      hide Kmem.Valid, Sized, Inv;
      ProtectedInv(x, managed, s);
      SizedKeys(View(x), View(x)[s := View(x)[s].(user := false)], sz);
      ProtectedView(x, s);
      x := x.(pt := x.pt[s := x.pt[s].(u := false)]);
    }

    /** fork, sharing pages or copying them. */
    method ForkBy(eager: bool, parent: int, child: int) returns (ok: bool)
      requires Valid() && parent in sz && child !in sz
      modifies kmem, this`x, this`sz
      ensures Valid()
      ensures old(sz)[parent] >= 0 && Backed(View(old(x)), parent, old(sz)[parent])
      ensures ok <==> !eager || old(sz)[parent] <= FreeFrames(old(x).refs, managed)
      ensures !ok ==> sz == old(sz) && View(x) == View(old(x))
      ensures ok ==> sz == old(sz)[child := old(sz)[parent]]
      ensures ok ==> x.next == old(x).next + if eager then old(sz)[parent] else 0
      ensures ok ==> View(x) == Forked(View(old(x)), parent, child, old(sz)[parent], WayOf(eager, old(x).next))
    {
      hide Kmem.Valid, Inv, View, Sized, FreeFrames;
      SizedAt(View(x), sz, parent);
      if eager {
        ok := Copyuvm(parent, child);
      } else {
        Cowuvm(parent, child);
        ok := true;
      }
    }

    /** All frames in use and a shared page: the next store to it finds no frame. */
    lemma Starving(s: Slot)
      requires Valid() && Doubled(View(x), s) && |Ids(View(x))| == |managed|
      ensures Ok() && Starves(x, managed, s)
    {
      hide Kmem.Valid, Ids, FreeFrames;
      ViewKeys(x);
      FreeIs(x, managed);
      DoubledIff(x, managed, s);
    }

    /** All memories as the processes see them, with who shares what. */
    ghost function Now(): Spec
      reads this
    {
      Spec(View(x), sz, x.next)
    }

    /** One event; false, and no change to any memory, exactly when it needs more frames
        than there are besides those in use. */
    method Step(eager: bool, e: Event) returns (ok: bool)
      requires Valid()
      modifies kmem, this`x, this`sz
      ensures Valid()
      ensures ok <==> Affords(eager, old(Now()), |managed|, e)
      ensures ok ==> Now() == SpecStep(eager, old(Now()), e)
      ensures !ok ==> View(x) == View(old(x)) && sz == old(sz)
    {
      hide Kmem.Valid, Inv, View, FreeFrames, Doubled, Ids, Sized, Grown, Forked, Dropped, Unshared, Poked, Backed;
      ViewKeys(x);
      FreeIs(x, managed);
      PagesFit(x, managed);
      ok := true;
      match e {
        case Spawn(pid) =>
          if pid !in sz {
            SizedSpawned(View(x), sz, pid);
            sz := sz[pid := 0];
          }
        case Grow(pid, n) =>
          if pid in sz {
            ok := Allocuvm(pid, n);
          }
        case Shrink(pid, n) =>
          if pid in sz && n <= sz[pid] {
            Deallocuvm(pid, n);
          }
        case Fork(p, c) =>
          if p in sz && c !in sz {
            ok := ForkBy(eager, p, c);
          }
        case Poke(s, off, v) =>
          ok := PokeStep(eager, s, off, v);
        case Protect(s) =>
          if s in x.pt {
            Clearpteu(s);
          }
        case Leave(pid) =>
          if pid in sz {
            Exit(pid);
          }
      }
    }

    lemma NoEntry(x: Mem, s: Slot)
      requires s !in x.pt
      ensures !Doubled(View(x), s)
    {
    }

    method PokeStep(eager: bool, s: Slot, off: int, v: int) returns (ok: bool)
      requires Valid()
      modifies kmem, this`x
      ensures Valid()
      ensures ok <==> (Doubled(View(old(x)), s) && 0 <= off < PGSIZE ==> FreeFrames(old(x).refs, managed) > 0)
      ensures ok ==> Now() == SpecStep(eager, old(Now()), Poke(s, off, v))
      ensures !ok ==> x == old(x)
    {
      hide Kmem.Valid, Inv, View, FreeFrames, Doubled, Sized;
      ViewKeys(x);
      if s !in x.pt {
        NoEntry(x, s);
        return true;
      }
      PageAt(x, managed, s);
      DoubledIff(x, managed, s);
      if !(0 <= off < PGSIZE) {
        return true;
      }
      ListEmpty();
      if x.refs[x.pt[s].frame] > 1 && kmem.freelist == -1 {
        return false;
      }
      var _ := Store(s, off, v);
      SizedStores(View(old(x)), old(x).next, s, off, v, View(x), x.next, sz);
      return true;
    }

    /** Every run does to all memories what the machine on values does, sharing or copying,
        and stops early exactly at the first event that needs more frames than there are
        besides those in use. */
    method Run(eager: bool, es: seq<Event>) returns (ok: bool, done: nat)
      requires Valid()
      modifies kmem, this`x, this`sz
      ensures Valid() && done <= |es| && (ok <==> done == |es|)
      ensures forall n :: 0 <= n < done ==> Affords(eager, After(eager, old(Now()), es, n), |managed|, es[n])
      ensures !ok ==> !Affords(eager, After(eager, old(Now()), es, done), |managed|, es[done])
      ensures var w := After(eager, old(Now()), es, done); View(x) == w.mem && sz == w.sz
    {
      hide Kmem.Valid, View, SpecStep, Inv, Affords;
      ghost var w := Now();
      done := 0;
      while done < |es|
        invariant 0 <= done <= |es| && Valid() && Now() == After(eager, w, es, done)
        invariant forall n :: 0 <= n < done ==> Affords(eager, After(eager, w, es, n), |managed|, es[n])
      {
        ok := Step(eager, es[done]);
        if !ok {
          return;
        }
        done := done + 1;
      }
      ok := true;
    }
  }

  // ---------------------------------------------------------------- whole runs

  datatype Event =
    | Spawn(pid: int)
    | Grow(pid: int, n: nat)
    | Shrink(pid: int, n: nat)
    | Fork(parent: int, child: int)
    | Poke(s: Slot, off: int, v: int)
    | Protect(s: Slot)
    | Leave(pid: int)

  /** All memories, their sizes, and the next page number. */
  datatype Spec = Spec(mem: Memory, sz: map<int, int>, next: int)

  /** The pages in use. */
  function Ids(mem: Memory): set<int> {
    set s | s in mem :: mem[s].id
  }

  /** The frames an event takes: one for each new page, one for each page an eager fork
      copies, and one for the fault of a store to a shared page. */
  ghost function FramesFor(eager: bool, w: Spec, e: Event): int {
    match e
    case Grow(pid, n) => if pid in w.sz then n else 0
    case Fork(p, c) => if eager && p in w.sz && c !in w.sz then w.sz[p] else 0
    case Poke(s, off, v) => if 0 <= off < PGSIZE && Doubled(w.mem, s) then 1 else 0
    case _ => 0
  }

  ghost predicate Affords(eager: bool, w: Spec, frames: int, e: Event) {
    FramesFor(eager, w, e) <= frames - |Ids(w.mem)|
  }

  predicate Backed(mem: Memory, pid: int, n: int) {
    forall v :: 0 <= v < n ==> Slot(pid, v) in mem
  }

  function WayOf(eager: bool, next: int): Way {
    if eager then Copying(next) else Sharing
  }

  /** One event on all memories; an event that makes no sense does nothing. */
  ghost function SpecStep(eager: bool, w: Spec, e: Event): Spec {
    match e
    case Spawn(pid) => if pid in w.sz then w else w.(sz := w.sz[pid := 0])
    case Grow(pid, n) =>
      if pid !in w.sz then w
      else Spec(Grown(w.mem, pid, w.sz[pid], n, w.next), w.sz[pid := w.sz[pid] + n], w.next + n)
    case Shrink(pid, n) =>
      if pid !in w.sz || n > w.sz[pid] then w
      else w.(mem := Dropped(w.mem, pid, n, w.sz[pid]), sz := w.sz[pid := n])
    case Fork(p, c) =>
      if p !in w.sz || c in w.sz || w.sz[p] < 0 || !Backed(w.mem, p, w.sz[p]) then w
      else Spec(Forked(w.mem, p, c, w.sz[p], WayOf(eager, w.next)), w.sz[c := w.sz[p]],
                w.next + if eager then w.sz[p] else 0)
    case Poke(s, off, v) =>
      if s !in w.mem || !(0 <= off < PGSIZE) then w
      else
        w.(mem := PokedBy(w.mem, s, off, v, w.next),
           next := w.next + if Doubled(w.mem, s) then 1 else 0)
    case Protect(s) =>
      if s in w.mem then w.(mem := w.mem[s := w.mem[s].(user := false)]) else w
    case Leave(pid) =>
      if pid !in w.sz then w else w.(mem := Dropped(w.mem, pid, 0, w.sz[pid]), sz := w.sz - {pid})
  }

  /** After the first n events. */
  ghost function After(eager: bool, w: Spec, es: seq<Event>, n: nat): Spec
    requires n <= |es|
  {
    if n == 0 then w else SpecStep(eager, After(eager, w, es, n - 1), es[n - 1])
  }

  /** The parent has pages 0 .. n - 1 and the child has none. */
  predicate Forkable(mem: Memory, parent: int, child: int, n: nat) {
    (forall v :: 0 <= v < n ==> Slot(parent, v) in mem) && (forall s :: s in mem ==> s.pid != child) && parent != child
  }

  lemma ForkPoint(mem0: Memory, x: Mem, parent: int, child: int, n: nat, i: nat, way: Way)
    requires Forkable(mem0, parent, child, n) && i < n && View(x) == Forked(mem0, parent, child, i, way)
    ensures Slot(parent, i) in x.pt && Slot(child, i) !in x.pt && View(x)[Slot(parent, i)] == mem0[Slot(parent, i)]
  {
    ForkedAt(mem0, parent, child, i, way, Slot(parent, i));
    ForkedAt(mem0, parent, child, i, way, Slot(child, i));
    assert Slot(parent, i) in View(x) && Slot(child, i) !in View(x);
  }

  /** Pages lo .. hi - 1 of process pid gone. */
  function Dropped(mem: Memory, pid: int, lo: int, hi: int): Memory {
    map s | s in mem && !(s.pid == pid && lo <= s.vpn < hi) :: mem[s]
  }

  lemma ProtectedInv(x: Mem, managed: set<int>, s: Slot)
    requires Inv(x, managed) && s in x.pt
    ensures Inv(x.(pt := x.pt[s := x.pt[s].(u := false)]), managed)
  {
    hide Counts;
    FlagCounts(x.refs, x.pt, managed, s, x.pt[s].(u := false));
  }

  lemma ProtectedView(x: Mem, s: Slot)
    requires s in x.pt
    ensures s in View(x) && View(x.(pt := x.pt[s := x.pt[s].(u := false)])) == View(x)[s := View(x)[s].(user := false)]
  {
  }

  lemma DroppedNothing(mem: Memory, pid: int, lo: int)
    ensures Dropped(mem, pid, lo, lo) == mem
  {
  }

  lemma ViewKeys(x: Mem)
    ensures forall s :: s in View(x) <==> s in x.pt
  {
  }

  lemma PageAt(x: Mem, managed: set<int>, s: Slot)
    requires Inv(x, managed) && s in x.pt
    ensures 0 <= x.pt[s].frame < |x.data| == |x.refs| && |x.data[x.pt[s].frame]| == PGSIZE
    ensures 0 <= x.pt[s].frame < |x.ids| && View(x)[s] == Cell(x.data[x.pt[s].frame], x.pt[s].u, x.ids[x.pt[s].frame])
    ensures x.pt[s].w == !x.pt[s].cow
  {
  }

  lemma DroppedStep(mem0: Memory, pid: int, lo: int, a: int, mem1: Memory, mem2: Memory)
    requires mem1 == Dropped(mem0, pid, lo, a) && lo <= a
    requires mem2 == if Slot(pid, a) in mem1 then mem1 - {Slot(pid, a)} else mem1
    ensures mem2 == Dropped(mem0, pid, lo, a + 1)
  {
  }

  lemma DroppedForked(mem: Memory, parent: int, child: int, n: nat, i: nat, way: Way)
    requires Forkable(mem, parent, child, n) && i <= n
    ensures Dropped(Forked(mem, parent, child, i, way), child, 0, i) == mem
  {
    forall s
      ensures s in Dropped(Forked(mem, parent, child, i, way), child, 0, i) <==> s in mem
      ensures s in mem ==> Dropped(Forked(mem, parent, child, i, way), child, 0, i)[s] == mem[s]
    {
      ForkedAt(mem, parent, child, i, way, s);
    }
  }

  lemma {:induction false} GrownAt(mem: Memory, pid: int, from: int, n: nat, next: int, s: Slot)
    ensures s in Grown(mem, pid, from, n, next) <==> s in mem || (s.pid == pid && from <= s.vpn < from + n)
    ensures s in Grown(mem, pid, from, n, next) ==>
            Grown(mem, pid, from, n, next)[s] ==
            if s.pid == pid && from <= s.vpn < from + n then Cell(Filled(0), true, next + s.vpn - from) else mem[s]
    decreases n
  {
    if n == 0 {
    } else {
      GrownAt(mem, pid, from, n - 1, next, s);
    }
  }

  lemma DroppedGrown(mem: Memory, pid: int, from: int, n: nat, i: nat, next: int)
    requires i <= n && forall s :: s in mem && s.pid == pid ==> s.vpn < from
    ensures Dropped(Grown(mem, pid, from, i, next), pid, from, from + n) == mem
  {
    forall s
      ensures s in Dropped(Grown(mem, pid, from, i, next), pid, from, from + n) <==> s in mem
      ensures s in mem ==> Dropped(Grown(mem, pid, from, i, next), pid, from, from + n)[s] == mem[s]
    {
      GrownAt(mem, pid, from, i, next, s);
    }
  }

  // ---------------------------------------------------------------- frames and pages in use

  function FreeSet(refs: seq<int>, managed: set<int>, n: nat): set<int>
    requires n <= |refs|
  {
    set f | f in managed && 0 <= f < n && refs[f] == 0
  }

  lemma {:induction false} FreeBelowIs(refs: seq<int>, managed: set<int>, n: nat)
    requires n <= |refs|
    ensures FreeBelow(refs, managed, n) == |FreeSet(refs, managed, n)|
  {
    if n == 0 {
      assert FreeSet(refs, managed, 0) == {};
    } else {
      FreeBelowIs(refs, managed, n - 1);
      var s, s' := FreeSet(refs, managed, n - 1), FreeSet(refs, managed, n);
      assert s' == if n - 1 in managed && refs[n - 1] == 0 then s + {n - 1} else s;
    }
  }

  /** The frames that the entries of some slots map, and the pages they name. */
  function FramesOf(slots: set<Slot>, pt: PageTables): set<int> {
    set s | s in slots && s in pt :: pt[s].frame
  }

  function PagesOf(slots: set<Slot>, pt: PageTables, ids: seq<int>): set<int> {
    set s | s in slots && s in pt && 0 <= pt[s].frame < |ids| :: ids[pt[s].frame]
  }

  lemma SlotsAdd(rest: set<Slot>, s: Slot, pt: PageTables, ids: seq<int>, next: int)
    requires Names(pt, ids, next) && s in pt && rest <= pt.Keys
    ensures FramesOf(rest + {s}, pt) == FramesOf(rest, pt) + {pt[s].frame}
    ensures PagesOf(rest + {s}, pt, ids) == PagesOf(rest, pt, ids) + {ids[pt[s].frame]}
    ensures pt[s].frame in FramesOf(rest, pt) <==> ids[pt[s].frame] in PagesOf(rest, pt, ids)
  {
  }

  lemma {:induction false} AsManyFrames(slots: set<Slot>, pt: PageTables, ids: seq<int>, next: int)
    requires Names(pt, ids, next) && slots <= pt.Keys
    ensures |FramesOf(slots, pt)| == |PagesOf(slots, pt, ids)|
    decreases |slots|
  {
    if slots == {} {
      NoSlots(pt, ids);
    } else {
      var s :| s in slots;
      var rest := slots - {s};
      AsManyFrames(rest, pt, ids, next);
      SlotsAdd(rest, s, pt, ids, next);
      hide FramesOf, PagesOf, Names;
      assert slots == rest + {s};
    }
  }

  lemma NoSlots(pt: PageTables, ids: seq<int>)
    ensures FramesOf({}, pt) == {} && PagesOf({}, pt, ids) == {}
  {
  }

  lemma UsedFrames(x: Mem, managed: set<int>)
    requires Inv(x, managed)
    ensures var used := FramesOf(x.pt.Keys, x.pt);
      && used <= managed && Names(x.pt, x.ids, x.next)
      && forall f :: f in managed ==> 0 <= f < |x.refs| && (x.refs[f] == 0 <==> f !in used)
  {
    hide Names, Flags;
    forall f | f in managed ensures x.refs[f] == 0 <==> f !in FramesOf(x.pt.Keys, x.pt) {
      if s :| s in x.pt && x.pt[s].frame == f {
        assert s in Mappers(x.pt, f);
      } else {
        assert Mappers(x.pt, f) == {};
      }
    }
  }

  lemma IdsOf(x: Mem, managed: set<int>)
    requires Inv(x, managed)
    ensures Ids(View(x)) == PagesOf(x.pt.Keys, x.pt, x.ids)
  {
    hide Counts, Flags;
    var a, b := Ids(View(x)), PagesOf(x.pt.Keys, x.pt, x.ids);
    forall i | i in a ensures i in b {
      var s :| s in View(x) && View(x)[s].id == i;
      assert s in x.pt.Keys && s in x.pt;
    }
    forall i | i in b ensures i in a {
      var s :| s in x.pt && 0 <= x.pt[s].frame < |x.ids| && x.ids[x.pt[s].frame] == i;
      assert s in View(x) && View(x)[s].id == i;
    }
  }

  /** Every page in use has one frame, and the other frames are free. */
  lemma FreeIs(x: Mem, managed: set<int>)
    requires Inv(x, managed)
    ensures FreeFrames(x.refs, managed) == |managed| - |Ids(View(x))|
  {
    hide Inv, Ids, View, Names, FramesOf, PagesOf;
    UsedFrames(x, managed);
    IdsOf(x, managed);
    var used := FramesOf(x.pt.Keys, x.pt);
    FreeBelowIs(x.refs, managed, |x.refs|);
    AsManyFrames(x.pt.Keys, x.pt, x.ids, x.next);
    assert FreeSet(x.refs, managed, |x.refs|) == managed - used;
    Remaining(managed, used);
  }

  lemma Remaining(a: set<int>, b: set<int>)
    requires b <= a
    ensures |a - b| == |a| - |b|
  {
    assert a == (a - b) + b;
  }

  lemma PagesFit(x: Mem, managed: set<int>)
    requires Inv(x, managed)
    ensures |Ids(View(x))| <= |managed|
  {
    hide Inv, Ids, View;
    FreeIs(x, managed);
  }

  // ---------------------------------------------------------------- what processes see

  /** The same pages with the same contents, whoever shares them. */
  ghost predicate Alike(a: Memory, b: Memory) {
    a.Keys == b.Keys && forall s :: s in a && s in b ==> a[s].page == b[s].page && a[s].user == b[s].user
  }

  lemma AlikeGrown(a: Memory, b: Memory, pid: int, from: int, n: nat, i: int, j: int)
    requires Alike(a, b)
    ensures Alike(Grown(a, pid, from, n, i), Grown(b, pid, from, n, j))
  {
    var a', b' := Grown(a, pid, from, n, i), Grown(b, pid, from, n, j);
    forall s
      ensures s in a' <==> s in b'
      ensures s in a' && s in b' ==> a'[s].page == b'[s].page && a'[s].user == b'[s].user
    {
      GrownAt(a, pid, from, n, i, s);
      GrownAt(b, pid, from, n, j, s);
    }
  }

  lemma AlikeForked(a: Memory, b: Memory, parent: int, child: int, n: nat, way: Way, way': Way)
    requires Alike(a, b) && Backed(a, parent, n) && Backed(b, parent, n)
    ensures Alike(Forked(a, parent, child, n, way), Forked(b, parent, child, n, way'))
  {
    var a', b' := Forked(a, parent, child, n, way), Forked(b, parent, child, n, way');
    forall s
      ensures s in a' <==> s in b'
      ensures s in a' && s in b' ==> a'[s].page == b'[s].page && a'[s].user == b'[s].user
    {
      ForkedAt(a, parent, child, n, way, s);
      ForkedAt(b, parent, child, n, way', s);
    }
  }

  ghost function PokedBy(mem: Memory, s: Slot, off: nat, v: int, next: int): Memory
    requires s in mem
  {
    var m := Unshared(mem, s, next);
    if m[s].user && off < |m[s].page| then Poked(m, s, off, v) else m
  }

  lemma AlikePoked(a: Memory, b: Memory, s: Slot, off: nat, v: int, i: int, j: int)
    requires Alike(a, b) && s in a && s in b
    ensures Alike(PokedBy(a, s, off, v, i), PokedBy(b, s, off, v, j))
  {
    hide Doubled;
  }

  lemma AlikeStep(a: Spec, b: Spec, eager: bool, eager': bool, e: Event)
    requires Alike(a.mem, b.mem) && a.sz == b.sz
    ensures Alike(SpecStep(eager, a, e).mem, SpecStep(eager', b, e).mem)
    ensures SpecStep(eager, a, e).sz == SpecStep(eager', b, e).sz
  {
    hide Grown, Forked, PokedBy, Doubled;
    match e
    case Grow(pid, n) =>
      if pid in a.sz {
        AlikeGrown(a.mem, b.mem, pid, a.sz[pid], n, a.next, b.next);
      }
    case Fork(p, c) =>
      if p in a.sz && c !in a.sz && a.sz[p] >= 0 {
        assert Backed(a.mem, p, a.sz[p]) <==> Backed(b.mem, p, a.sz[p]);
        if Backed(a.mem, p, a.sz[p]) {
          AlikeForked(a.mem, b.mem, p, c, a.sz[p], WayOf(eager, a.next), WayOf(eager', b.next));
        }
      }
    case Poke(s, off, v) =>
      if s in a.mem && 0 <= off < PGSIZE {
        AlikePoked(a.mem, b.mem, s, off, v, a.next, b.next);
      }
    case _ =>
  }

  /** No process can tell whether fork shares or copies: after the same events each sees
      the same memory, although other pages are shared and other frames are left. */
  lemma {:induction false} Indistinguishable(w: Spec, es: seq<Event>, n: nat)
    requires n <= |es|
    ensures Alike(After(false, w, es, n).mem, After(true, w, es, n).mem)
    ensures After(false, w, es, n).sz == After(true, w, es, n).sz
  {
    hide Alike, SpecStep;
    if n == 0 {
      AlikeSame(w.mem);
    } else {
      Indistinguishable(w, es, n - 1);
      AlikeStep(After(false, w, es, n - 1), After(true, w, es, n - 1), false, true, es[n - 1]);
    }
  }

  lemma AlikeSame(a: Memory)
    ensures Alike(a, a)
  {
  }

  // ---------------------------------------------------------------- private memories

  /** A page of a process that shares nothing with anyone. */
  datatype Own = Own(page: Page, user: bool)

  /** Each process's pages, in order. */
  type Private = map<int, seq<Own>>

  predicate Has(m: Private, s: Slot) {
    s.pid in m && 0 <= s.vpn < |m[s.pid]|
  }

  /** What an event means to processes with a memory of their own each. */
  function PrivateStep(m: Private, e: Event): Private {
    match e
    case Spawn(pid) => if pid in m then m else m[pid := []]
    case Grow(pid, n) => if pid in m then m[pid := m[pid] + seq(n, _ => Own(Filled(0), true))] else m
    case Shrink(pid, n) => if pid in m && n <= |m[pid]| then m[pid := m[pid][..n]] else m
    case Fork(p, c) => if p in m && c !in m then m[c := m[p]] else m
    case Poke(s, off, v) =>
      if Has(m, s) && m[s.pid][s.vpn].user && 0 <= off < PGSIZE && off < |m[s.pid][s.vpn].page|
      then m[s.pid := m[s.pid][s.vpn := Own(m[s.pid][s.vpn].page[off := v], true)]] else m
    case Protect(s) => if Has(m, s) then m[s.pid := m[s.pid][s.vpn := Own(m[s.pid][s.vpn].page, false)]] else m
    case Leave(pid) => m - {pid}
  }

  function PrivateAfter(m: Private, es: seq<Event>, n: nat): Private
    requires n <= |es|
  {
    if n == 0 then m else PrivateStep(PrivateAfter(m, es, n - 1), es[n - 1])
  }

  predicate SameCell(mem: Memory, m: Private, s: Slot)
    requires s in mem && Has(m, s)
  {
    mem[s].page == m[s.pid][s.vpn].page && mem[s].user == m[s.pid][s.vpn].user
  }

  /** The processes see exactly these memories. */
  ghost predicate Sees(w: Spec, m: Private) {
    && w.sz.Keys == m.Keys && (forall p :: p in m ==> w.sz[p] == |m[p]|)
    && (forall s :: s in w.mem <==> Has(m, s))
    && (forall s :: s in w.mem ==> SameCell(w.mem, m, s))
  }

  lemma SeesGrow(w: Spec, m: Private, eager: bool, pid: int, n: nat)
    requires Sees(w, m)
    ensures Sees(SpecStep(eager, w, Grow(pid, n)), PrivateStep(m, Grow(pid, n)))
  {
    if pid in m {
      var w', m' := SpecStep(eager, w, Grow(pid, n)), PrivateStep(m, Grow(pid, n));
      forall s ensures s in w'.mem <==> Has(m', s) {
        GrownAt(w.mem, pid, w.sz[pid], n, w.next, s);
        assert s in w.mem <==> Has(m, s);
      }
      forall s | s in w'.mem ensures SameCell(w'.mem, m', s) {
        GrownAt(w.mem, pid, w.sz[pid], n, w.next, s);
      }
    }
  }

  lemma SeesFork(w: Spec, m: Private, eager: bool, p: int, c: int)
    requires Sees(w, m)
    ensures Sees(SpecStep(eager, w, Fork(p, c)), PrivateStep(m, Fork(p, c)))
  {
    if p in m && c !in m {
      assert Backed(w.mem, p, w.sz[p]) by {
        forall v | 0 <= v < w.sz[p] ensures Slot(p, v) in w.mem {
          assert Has(m, Slot(p, v));
        }
      }
      var w', m' := SpecStep(eager, w, Fork(p, c)), PrivateStep(m, Fork(p, c));
      forall s ensures s in w'.mem <==> Has(m', s) {
        ForkedAt(w.mem, p, c, w.sz[p], WayOf(eager, w.next), s);
        assert s in w.mem <==> Has(m, s);
      }
      forall s | s in w'.mem ensures SameCell(w'.mem, m', s) {
        ForkedAt(w.mem, p, c, w.sz[p], WayOf(eager, w.next), s);
        var q := if s.pid == c then Slot(p, s.vpn) else s;
        assert Has(m, q) && SameCell(w.mem, m, q);
      }
    }
  }

  lemma SeesDrop(w: Spec, m: Private, eager: bool, e: Event)
    requires Sees(w, m) && (e.Shrink? || e.Leave? || e.Spawn?)
    ensures Sees(SpecStep(eager, w, e), PrivateStep(m, e))
  {
    var w', m' := SpecStep(eager, w, e), PrivateStep(m, e);
    forall s ensures s in w'.mem <==> Has(m', s) {
      assert s in w.mem <==> Has(m, s);
    }
    forall s | s in w'.mem ensures SameCell(w'.mem, m', s) {
      assert SameCell(w.mem, m, s);
    }
  }

  lemma SeesPoke(w: Spec, m: Private, eager: bool, e: Event)
    requires Sees(w, m) && (e.Poke? || e.Protect?)
    ensures Sees(SpecStep(eager, w, e), PrivateStep(m, e))
  {
    hide Doubled;
    var w', m' := SpecStep(eager, w, e), PrivateStep(m, e);
    if e.s in w.mem {
      assert SameCell(w.mem, m, e.s);
    }
    forall s ensures s in w'.mem <==> Has(m', s) {
      assert s in w.mem <==> Has(m, s);
    }
    forall s | s in w'.mem ensures SameCell(w'.mem, m', s) {
      assert SameCell(w.mem, m, s);
    }
  }

  /** Copy-on-write refines private memories: after any run, sharing or copying, every
      process sees exactly the memory it would have if nothing were ever shared. */
  lemma {:induction false} PrivateRun(eager: bool, w: Spec, m: Private, es: seq<Event>, n: nat)
    requires Sees(w, m) && n <= |es|
    ensures Sees(After(eager, w, es, n), PrivateAfter(m, es, n))
  {
    hide Sees, SpecStep, PrivateStep;
    if n == 0 {
    } else {
      PrivateRun(eager, w, m, es, n - 1);
      var u, k, e := After(eager, w, es, n - 1), PrivateAfter(m, es, n - 1), es[n - 1];
      match e
      case Grow(pid, j) => SeesGrow(u, k, eager, pid, j);
      case Fork(p, c) => SeesFork(u, k, eager, p, c);
      case Poke(_, _, _) => SeesPoke(u, k, eager, e);
      case Protect(_) => SeesPoke(u, k, eager, e);
      case _ => SeesDrop(u, k, eager, e);
    }
  }

  // ---------------------------------------------------------------- a fault without a frame

  /** With one frame: a process, its first page, and a child that shares it. */
  function Pair(): Memory {
    var c := Cell(Filled(0), true, 0);
    map[Slot(1, 0) := c, Slot(2, 0) := c]
  }

  lemma PairSteps()
    ensures var w := Spec(map[], map[], 0);
      && Affords(false, w, 1, Spawn(1)) && SpecStep(false, w, Spawn(1)) == Spec(map[], map[1 := 0], 0)
    ensures var w := Spec(map[], map[1 := 0], 0); var m := map[Slot(1, 0) := Cell(Filled(0), true, 0)];
      && Affords(false, w, 1, Grow(1, 1)) && SpecStep(false, w, Grow(1, 1)) == Spec(m, map[1 := 1], 1)
    ensures var m := map[Slot(1, 0) := Cell(Filled(0), true, 0)]; var w := Spec(m, map[1 := 1], 1);
      && Affords(false, w, 1, Fork(1, 2)) && SpecStep(false, w, Fork(1, 2)) == Spec(Pair(), map[1 := 1, 2 := 1], 1)
    ensures Ids(Pair()) == {0} && Doubled(Pair(), Slot(1, 0))
  {
    hide Filled;
    var c := Cell(Filled(0), true, 0);
    var m := map[Slot(1, 0) := c];
    assert Ids(map[]) == {};
    assert Grown(map[], 1, 0, 0, 0) == map[] && Grown(map[], 1, 0, 1, 0) == m;
    assert Slot(1, 0) in m && Ids(m) == {0};
    assert Forked(m, 1, 2, 0, Sharing) == m && Forked(m, 1, 2, 1, Sharing) == m[Slot(2, 0) := c];
    assert Slot(1, 0) in Pair() && Slot(2, 0) in Pair() && Pair()[Slot(2, 0)].id == Pair()[Slot(1, 0)].id;
  }

  /** From boot with a single frame, the parent's first store after a fork is such a
      fault. */
  method StarvedFault() returns (vm: Vm, r: Access)
    ensures r == Starved && !Inv(vm.x, vm.managed)
  {
    hide Inv, Kmem.Valid, View, SpecStep, Affords, Doubled, Ids, Pair, Vm.Valid, Vm.Ok;
    PairSteps();
    var kmem := new Kmem(0, 0, 1);
    OneFrame();
    vm := new Vm(kmem);
    var ok := vm.Step(false, Spawn(1));
    ok := vm.Step(false, Grow(1, 1));
    ok := vm.Step(false, Fork(1, 2));
    vm.Starving(Slot(1, 0));
    r := vm.Store(Slot(1, 0), 0, 7);
  }

  lemma OneFrame()
    ensures |Span(0, 1)| == 1
  {
    assert Span(0, 1) == {0};
  }
}
