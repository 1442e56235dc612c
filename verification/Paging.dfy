/** Demand paging of one unforked process (vm.c): at most 16 pages in memory, up to 16
    more in its swap file, against a flat memory that never pages.

    The replacement heap is the array of PriorityQueue. What happens to priorities between
    faults is left open, so the results hold for every replacement policy. */
module Paging {
  import Fs
  import opened PriorityQueue
  import SecondChance
  import Volume

  const PGSIZE := 4096
  const MAX_PSYC_PAGES := 16
  const MAX_TOTAL_PAGES := 32

  type byte = Volume.byte
  type Page = seq<byte>

  /** struct paging_meta_data. */
  datatype Pmd = Pmd(va: int, occupied: bool, pgdir: int, offset: int, age: int)

  /** A physical frame, by address. */
  datatype Frame = Frame(pa: int)

  /** A page-table entry: frame, PTE_P, PTE_PG. */
  datatype Pte = Pte(frame: Frame, p: bool, pg: bool)

  /** The paging fields of struct proc, its page table, the frames it owns, the frames
      kalloc can hand out, and its swap file. */
  datatype Proc = Proc(
    pgdir: int,
    ram: seq<Pmd>, swap: seq<Pmd>, inMem: int, inSwap: int,
    pte: map<int, Pte>, frames: map<Frame, Page>, free: set<Frame>,
    file: seq<byte>)

  /** The specification: the flat memory, and where each page currently lives. `own`
      names the page of each frame, `used` counts the swap slots ever written. */
  datatype Spec = Spec(
    mem: map<int, Page>, ramAt: map<int, int>, swapAt: map<int, int>, own: map<Frame, int>, used: int)

  function Occ(s: seq<Pmd>): set<int> {
    set i | 0 <= i < |s| && s[i].occupied
  }

  // ---------------------------------------------------------------- the invariant

  /** RAM slots: the counter matches the occupied slots, each occupied slot holds one
      present page, and a vacant slot names none. */
  predicate RamOk(ram: seq<Pmd>, n: int, pgdir: int, at: map<int, int>) {
    && |ram| == MAX_PSYC_PAGES && n == |Occ(ram)|
    && (forall i :: 0 <= i < |ram| && ram[i].occupied ==>
          ram[i].va in at && at[ram[i].va] == i && ram[i].pgdir == pgdir)
    && (forall i :: 0 <= i < |ram| && !ram[i].occupied ==> ram[i].va == -1)
    && (forall a :: a in at ==> 0 <= at[a] < |ram| && ram[at[a]].occupied && ram[at[a]].va == a)
  }

  /** Swap slots likewise, except that a vacated slot keeps naming its last page: then
      that page's live slot, if it has one, comes first. */
  predicate SwapOk(swap: seq<Pmd>, n: int, pgdir: int, at: map<int, int>) {
    && |swap| == MAX_PSYC_PAGES && n == |Occ(swap)|
    && (forall i :: 0 <= i < |swap| && swap[i].occupied ==>
          && swap[i].va in at && at[swap[i].va] == i
          && swap[i].pgdir == pgdir && swap[i].offset == i * PGSIZE)
    && (forall a :: a in at ==> 0 <= at[a] < |swap| && swap[at[a]].occupied && swap[at[a]].va == a)
    && (forall i :: 0 <= i < |swap| && swap[i].va in at ==> at[swap[i].va] <= i)
  }

  /** Each page is in exactly one of RAM and swap, as its entry's flags say. */
  predicate PteOk(pte: map<int, Pte>, mem: map<int, Page>, ramAt: map<int, int>, swapAt: map<int, int>) {
    && pte.Keys == mem.Keys && ramAt.Keys <= mem.Keys && swapAt.Keys <= mem.Keys
    && (forall a :: a in pte ==>
          a >= 0 && pte[a].pg == !pte[a].p && (a in ramAt) == pte[a].p && (a in swapAt) == pte[a].pg)
    && (forall a :: a in mem ==> |mem[a]| == PGSIZE)
  }

  /** The frames owned are exactly those of the present pages, one each, and hold their
      contents. */
  predicate FramesOk(frames: map<Frame, Page>, free: set<Frame>, pte: map<int, Pte>, own: map<Frame, int>,
                     mem: map<int, Page>)
  {
    && frames.Keys == own.Keys && free !! frames.Keys
    && (forall f :: f in own ==> own[f] in pte && pte[own[f]].p && pte[own[f]].frame == f)
    && (forall a :: a in pte && pte[a].p ==>
          a in mem && pte[a].frame in own && own[pte[a].frame] == a && frames[pte[a].frame] == mem[a])
  }

  function FilePage(file: seq<byte>, k: int): Page {
    if 0 <= k && (k + 1) * PGSIZE <= |file| then file[k * PGSIZE..(k + 1) * PGSIZE] else []
  }

  /** The swap file is `used` pages long and holds every paged-out page in its slot. */
  predicate FileOk(file: seq<byte>, used: int, at: map<int, int>, mem: map<int, Page>) {
    && 0 <= used <= MAX_PSYC_PAGES && |file| == used * PGSIZE
    && (forall a :: a in at ==> 0 <= at[a] < used && a in mem && FilePage(file, at[a]) == mem[a])
  }

  predicate Inv(x: Proc, sp: Spec) {
    && RamOk(x.ram, x.inMem, x.pgdir, sp.ramAt)
    && SwapOk(x.swap, x.inSwap, x.pgdir, sp.swapAt)
    && PteOk(x.pte, sp.mem, sp.ramAt, sp.swapAt)
    && FramesOk(x.frames, x.free, x.pte, sp.own, sp.mem)
    && FileOk(x.file, sp.used, sp.swapAt, sp.mem)
  }

  // ---------------------------------------------------------------- counting slots

  function OccBelow(s: seq<Pmd>, n: nat): set<int> {
    set i | 0 <= i < n && i < |s| && s[i].occupied
  }

  lemma OccStep(s: seq<Pmd>, n: nat)
    requires n < |s|
    ensures |OccBelow(s, n + 1)| == |OccBelow(s, n)| + if s[n].occupied then 1 else 0
  {
    assert OccBelow(s, n + 1) == if s[n].occupied then OccBelow(s, n) + {n} else OccBelow(s, n);
  }

  lemma {:induction false} OccRange(s: seq<Pmd>, n: nat)
    requires n <= |s|
    ensures |OccBelow(s, n)| <= n
    ensures (forall i :: 0 <= i < n ==> s[i].occupied) <==> |OccBelow(s, n)| == n
  {
    if n == 0 {
      assert OccBelow(s, 0) == {};
    } else {
      OccRange(s, n - 1);
      OccStep(s, n - 1);
    }
  }

  /** The counter reaches the number of slots exactly when every slot is taken. */
  lemma OccFull(s: seq<Pmd>)
    ensures |Occ(s)| <= |s|
    ensures (forall i :: 0 <= i < |s| ==> s[i].occupied) <==> |Occ(s)| == |s|
  {
    OccRange(s, |s|);
    assert OccBelow(s, |s|) == Occ(s);
  }

  function PagesBelow(s: seq<Pmd>, n: nat): set<int> {
    set i | 0 <= i < n && i < |s| && s[i].occupied :: s[i].va
  }

  /** As many pages as occupied slots, when no page has two. */
  lemma {:induction false} CountPages(at: map<int, int>, s: seq<Pmd>, n: nat)
    requires n <= |s|
    requires forall i :: 0 <= i < |s| && s[i].occupied ==> s[i].va in at && at[s[i].va] == i
    ensures |PagesBelow(s, n)| == |OccBelow(s, n)|
  {
    if n == 0 {
      assert PagesBelow(s, 0) == {};
      assert OccBelow(s, 0) == {};
    } else {
      CountPages(at, s, n - 1);
      OccStep(s, n - 1);
      PageStep(at, s, n - 1);
    }
  }

  lemma PageStep(at: map<int, int>, s: seq<Pmd>, n: nat)
    requires n < |s|
    requires forall i :: 0 <= i < |s| && s[i].occupied ==> s[i].va in at && at[s[i].va] == i
    ensures |PagesBelow(s, n + 1)| == |PagesBelow(s, n)| + if s[n].occupied then 1 else 0
  {
    var b := PagesBelow(s, n);
    assert PagesBelow(s, n + 1) == if s[n].occupied then b + {s[n].va} else b;
    assert s[n].occupied ==> s[n].va !in b;
  }

  lemma OccUpdate(s: seq<Pmd>, k: nat, m: Pmd)
    requires k < |s|
    ensures Occ(s[k := m]) == if m.occupied then Occ(s) + {k} else Occ(s) - {k}
    ensures |Occ(s[k := m])| == |Occ(s)| + (if m.occupied then 1 else 0) - (if s[k].occupied then 1 else 0)
  {
    assert Occ(s[k := m]) == if m.occupied then Occ(s) + {k} else Occ(s) - {k};
  }

  // ---------------------------------------------------------------- one slot, frame or file page at a time

  function Cleared(m: Pmd): Pmd {
    m.(va := -1, occupied := false, offset := 0, age := 0)
  }

  lemma RamGive(ram: seq<Pmd>, n: int, pgdir: int, at: map<int, int>, i: nat)
    requires RamOk(ram, n, pgdir, at) && i < |ram| && ram[i].occupied
    ensures RamOk(ram[i := Cleared(ram[i])], n - 1, pgdir, at - {ram[i].va})
  {
    OccUpdate(ram, i, Cleared(ram[i]));
  }

  lemma RamTake(ram: seq<Pmd>, n: int, pgdir: int, at: map<int, int>, i: nat, m: Pmd)
    requires RamOk(ram, n, pgdir, at) && i < |ram| && !ram[i].occupied
    requires m.occupied && m.pgdir == pgdir && m.va !in at
    ensures RamOk(ram[i := m], n + 1, pgdir, at[m.va := i])
  {
    OccUpdate(ram, i, m);
  }

  /** Taking the lowest vacant slot puts the page before every stale entry for it. */
  lemma SwapTake(swap: seq<Pmd>, n: int, pgdir: int, at: map<int, int>, k: nat, m: Pmd)
    requires SwapOk(swap, n, pgdir, at) && k < |swap| && !swap[k].occupied
    requires forall j :: 0 <= j < k ==> swap[j].occupied
    requires m.occupied && m.pgdir == pgdir && m.offset == k * PGSIZE && m.va !in at
    ensures SwapOk(swap[k := m], n + 1, pgdir, at[m.va := k])
  {
    OccUpdate(swap, k, m);
    var s, t := swap[k := m], at[m.va := k];
    forall j | 0 <= j < |s| && s[j].va in t
      ensures t[s[j].va] <= j
    {
      if j < k {
        assert swap[j].occupied;
      }
    }
  }

  lemma VacantSlot(swap: seq<Pmd>, n: int, pgdir: int, at: map<int, int>, k: nat)
    requires SwapOk(swap, n, pgdir, at) && k < |swap| && !swap[k].occupied
    ensures forall b :: b in at ==> at[b] != k
  {
  }

  lemma SwapGive(swap: seq<Pmd>, n: int, pgdir: int, at: map<int, int>, k: nat)
    requires SwapOk(swap, n, pgdir, at) && k < |swap| && swap[k].occupied
    ensures SwapOk(swap[k := swap[k].(occupied := false)], n - 1, pgdir, at - {swap[k].va})
  {
    OccUpdate(swap, k, swap[k].(occupied := false));
  }

  lemma SplicePage(file: seq<byte>, n: nat, k: nat, page: Page, j: nat)
    requires |file| == n * PGSIZE && k <= n && |page| == PGSIZE && (j < n || j == k)
    ensures |Fs.Splice(file, k * PGSIZE, page)| == (if k == n then n + 1 else n) * PGSIZE
    ensures FilePage(Fs.Splice(file, k * PGSIZE, page), j) == if j == k then page else FilePage(file, j)
  {
    assert k < n ==> (k + 1) * PGSIZE <= n * PGSIZE;
    assert j < k ==> (j + 1) * PGSIZE <= k * PGSIZE;
    assert k < j ==> (k + 1) * PGSIZE <= j * PGSIZE;
    assert FilePage(Fs.Splice(file, k * PGSIZE, page), j) == if j == k then page else FilePage(file, j);
  }

  lemma FileTake(file: seq<byte>, used: nat, at: map<int, int>, mem: map<int, Page>, a: int, k: nat, page: Page)
    requires FileOk(file, used, at, mem) && k <= used && k < MAX_PSYC_PAGES
    requires forall b :: b in at ==> at[b] != k
    requires a in mem && mem[a] == page && |page| == PGSIZE
    ensures k * PGSIZE <= |file|
    ensures FileOk(Fs.Splice(file, k * PGSIZE, page), if k == used then k + 1 else used, at[a := k], mem)
  {
    SplicePage(file, used, k, page, k);
    forall b | b in at[a := k]
      ensures FilePage(Fs.Splice(file, k * PGSIZE, page), at[a := k][b]) == mem[b]
    {
      SplicePage(file, used, k, page, at[a := k][b]);
    }
  }

  // ---------------------------------------------------------------- what the invariant says of one slot

  lemma RamPage(x: Proc, sp: Spec, i: nat)
    requires Inv(x, sp) && i < |x.ram| && x.ram[i].occupied
    ensures var a := x.ram[i].va;
      && a in sp.ramAt && a !in sp.swapAt && a in sp.mem && a in x.pte && x.pte[a].p && x.ram[i].pgdir == x.pgdir
      && x.pte[a].frame in x.frames && x.pte[a].frame !in x.free
      && x.frames[x.pte[a].frame] == sp.mem[a] && |sp.mem[a]| == PGSIZE
  {
  }

  lemma SwapPage(x: Proc, sp: Spec, k: nat)
    requires Inv(x, sp) && k < |x.swap| && x.swap[k].occupied
    ensures var a := x.swap[k].va;
      && a in sp.swapAt && a !in sp.ramAt && a in sp.mem && a in x.pte && !x.pte[a].p && a >= 0
      && x.swap[k].offset == k * PGSIZE && x.swap[k].pgdir == x.pgdir
      && FilePage(x.file, k) == sp.mem[a] && |sp.mem[a]| == PGSIZE && (k + 1) * PGSIZE <= |x.file|
  {
  }

  lemma Reinsert<T>(m: map<int, T>, a: int, v: T)
    ensures (m - {a})[a := v] == m[a := v]
    ensures a in m && m[a] == v ==> m[a := v] == m
  {
  }

  lemma NewKey<T>(m: map<int, T>, a: int, v: T)
    requires a !in m
    ensures |m[a := v].Keys| == |m.Keys| + 1
  {
    assert m[a := v].Keys == m.Keys + {a};
  }

  lemma Trade(pte: map<int, Pte>, a: int, b: int, d: Pte, e: Pte)
    requires a != b
    ensures (pte - {b})[a := d][b := e] == pte[a := d][b := e]
  {
  }

  // ---------------------------------------------------------------- elementary steps

  /** pageToSwapFile: the page in RAM slot i goes to swap slot k. */
  function PageOut(x: Proc, i: nat, k: nat): Proc
    requires i < |x.ram| && k < |x.swap| && x.ram[i].va in x.pte && x.pte[x.ram[i].va].frame in x.frames
    requires k * PGSIZE <= |x.file|
  {
    var a := x.ram[i].va;
    var e := x.pte[a];
    x.(swap := x.swap[k := x.swap[k].(pgdir := x.ram[i].pgdir, offset := k * PGSIZE, occupied := true, va := a)],
       inSwap := x.inSwap + 1, ram := x.ram[i := Cleared(x.ram[i])], inMem := x.inMem - 1,
       file := Fs.Splice(x.file, k * PGSIZE, x.frames[e.frame]),
       frames := x.frames - {e.frame}, free := x.free + {e.frame},
       pte := x.pte[a := e.(p := false, pg := true)])
  }

  function SpecOut(x: Proc, sp: Spec, i: nat, k: nat): Spec
    requires i < |x.ram| && x.ram[i].va in x.pte
  {
    var a := x.ram[i].va;
    sp.(ramAt := sp.ramAt - {a}, swapAt := sp.swapAt[a := k], own := sp.own - {x.pte[a].frame},
        used := if k == sp.used then k + 1 else sp.used)
  }

  predicate OutReady(x: Proc, sp: Spec, i: nat, k: nat) {
    Inv(x, sp) && i < |x.ram| && x.ram[i].occupied && k < |x.swap| && !x.swap[k].occupied
    && forall j :: 0 <= j < k ==> x.swap[j].occupied
  }

  /** The swap write starts at or below the end of the file and stays within the largest
      file there is, so writei accepts it whole. */
  lemma SwapWriteAccepted(x: Proc, sp: Spec, i: nat, k: nat)
    requires OutReady(x, sp, i, k)
    ensures k * PGSIZE <= sp.used * PGSIZE == |x.file| && k * PGSIZE + PGSIZE <= Volume.MAXBYTES
    ensures x.ram[i].va in x.pte && x.pte[x.ram[i].va].frame in x.frames
  {
    if k > 0 {
      assert x.swap[k - 1].occupied;
    }
  }

  lemma OutFrames(frames: map<Frame, Page>, free: set<Frame>, pte: map<int, Pte>, own: map<Frame, int>,
                  mem: map<int, Page>, a: int)
    requires FramesOk(frames, free, pte, own, mem) && a in pte && pte[a].p
    ensures var f := pte[a].frame;
      FramesOk(frames - {f}, free + {f}, pte[a := Pte(f, false, true)], own - {f}, mem)
  {
  }

  lemma OutPte(pte: map<int, Pte>, mem: map<int, Page>, ramAt: map<int, int>, swapAt: map<int, int>, a: int, k: int)
    requires PteOk(pte, mem, ramAt, swapAt) && a in pte && pte[a].p
    ensures PteOk(pte[a := Pte(pte[a].frame, false, true)], mem, ramAt - {a}, swapAt[a := k])
  {
  }

  /** pageToSwapFile keeps the invariant and the flat memory. */
  lemma PageOutOk(x: Proc, sp: Spec, i: nat, k: nat)
    requires OutReady(x, sp, i, k)
    ensures k * PGSIZE <= |x.file| && x.ram[i].va in x.pte && x.pte[x.ram[i].va].frame in x.frames
    ensures Inv(PageOut(x, i, k), SpecOut(x, sp, i, k))
    ensures SpecOut(x, sp, i, k).mem == sp.mem
  {
    SwapWriteAccepted(x, sp, i, k);
    RamPage(x, sp, i);
    hide RamOk, SwapOk, PteOk, FramesOk, FileOk;
    var a := x.ram[i].va;
    var m := x.swap[k].(pgdir := x.ram[i].pgdir, offset := k * PGSIZE, occupied := true, va := a);
    VacantSlot(x.swap, x.inSwap, x.pgdir, sp.swapAt, k);
    RamGive(x.ram, x.inMem, x.pgdir, sp.ramAt, i);
    SwapTake(x.swap, x.inSwap, x.pgdir, sp.swapAt, k, m);
    OutPte(x.pte, sp.mem, sp.ramAt, sp.swapAt, a, k);
    OutFrames(x.frames, x.free, x.pte, sp.own, sp.mem, a);
    FileTake(x.file, sp.used, sp.swapAt, sp.mem, a, k, x.frames[x.pte[a].frame]);
  }

  /** Swap slot k gives up its page, which leaves the page table. */
  function Vacate(x: Proc, k: nat): Proc
    requires k < |x.swap|
  {
    x.(swap := x.swap[k := x.swap[k].(occupied := false)], inSwap := x.inSwap - 1, pte := x.pte - {x.swap[k].va})
  }

  function SpecVacate(x: Proc, sp: Spec, k: nat): Spec
    requires k < |x.swap|
  {
    var a := x.swap[k].va;
    sp.(mem := sp.mem - {a}, swapAt := sp.swapAt - {a})
  }

  lemma DropPte(pte: map<int, Pte>, mem: map<int, Page>, ramAt: map<int, int>, swapAt: map<int, int>, a: int)
    requires PteOk(pte, mem, ramAt, swapAt) && a in pte
    ensures PteOk(pte - {a}, mem - {a}, ramAt - {a}, swapAt - {a})
  {
  }

  lemma DropFrames(frames: map<Frame, Page>, free: set<Frame>, pte: map<int, Pte>, own: map<Frame, int>,
                   mem: map<int, Page>, a: int)
    requires FramesOk(frames, free, pte, own, mem) && a in pte && !pte[a].p
    ensures FramesOk(frames, free, pte - {a}, own, mem - {a})
  {
  }

  lemma DropFile(file: seq<byte>, used: int, at: map<int, int>, mem: map<int, Page>, a: int)
    requires FileOk(file, used, at, mem)
    ensures FileOk(file, used, at - {a}, mem - {a})
  {
  }

  lemma VacateOk(x: Proc, sp: Spec, k: nat)
    requires Inv(x, sp) && k < |x.swap| && x.swap[k].occupied
    ensures Inv(Vacate(x, k), SpecVacate(x, sp, k))
  {
    var a := x.swap[k].va;
    SwapPage(x, sp, k);
    hide RamOk, SwapOk, PteOk, FramesOk, FileOk;
    assert sp.ramAt - {a} == sp.ramAt;
    SwapGive(x.swap, x.inSwap, x.pgdir, sp.swapAt, k);
    DropPte(x.pte, sp.mem, sp.ramAt, sp.swapAt, a);
    DropFrames(x.frames, x.free, x.pte, sp.own, sp.mem, a);
    DropFile(x.file, sp.used, sp.swapAt, sp.mem, a);
  }

  /** A page with the given contents appears in the free frame f and RAM slot i. */
  function Install(x: Proc, i: nat, m: Pmd, f: Frame, page: Page): Proc
    requires i < |x.ram|
  {
    x.(ram := x.ram[i := m], inMem := x.inMem + 1,
       pte := x.pte[m.va := Pte(f, true, false)], frames := x.frames[f := page], free := x.free - {f})
  }

  function SpecInstall(sp: Spec, i: nat, m: Pmd, f: Frame, page: Page): Spec {
    sp.(mem := sp.mem[m.va := page], ramAt := sp.ramAt[m.va := i], own := sp.own[f := m.va])
  }

  lemma InstallFrames(frames: map<Frame, Page>, free: set<Frame>, pte: map<int, Pte>, own: map<Frame, int>,
                      mem: map<int, Page>, a: int, f: Frame, page: Page)
    requires FramesOk(frames, free, pte, own, mem) && a !in pte && f in free
    ensures FramesOk(frames[f := page], free - {f}, pte[a := Pte(f, true, false)], own[f := a], mem[a := page])
  {
  }

  lemma InstallPte(pte: map<int, Pte>, mem: map<int, Page>, ramAt: map<int, int>, swapAt: map<int, int>, a: int,
                   f: Frame, i: int, page: Page)
    requires PteOk(pte, mem, ramAt, swapAt) && a !in pte && a >= 0 && |page| == PGSIZE
    ensures PteOk(pte[a := Pte(f, true, false)], mem[a := page], ramAt[a := i], swapAt)
  {
  }

  lemma InstallFile(file: seq<byte>, used: int, at: map<int, int>, mem: map<int, Page>, a: int, page: Page)
    requires FileOk(file, used, at, mem) && a !in at
    ensures FileOk(file, used, at, mem[a := page])
  {
  }

  lemma InstallOk(x: Proc, sp: Spec, i: nat, m: Pmd, f: Frame, page: Page)
    requires Inv(x, sp) && i < |x.ram| && !x.ram[i].occupied && m.occupied && m.pgdir == x.pgdir
    requires m.va >= 0 && m.va !in x.pte && f in x.free && |page| == PGSIZE
    ensures Inv(Install(x, i, m, f, page), SpecInstall(sp, i, m, f, page))
  {
    assert m.va !in sp.ramAt && m.va !in sp.swapAt;
    hide RamOk, SwapOk, PteOk, FramesOk, FileOk;
    RamTake(x.ram, x.inMem, x.pgdir, sp.ramAt, i, m);
    InstallPte(x.pte, sp.mem, sp.ramAt, sp.swapAt, m.va, f, i, page);
    InstallFrames(x.frames, x.free, x.pte, sp.own, sp.mem, m.va, f, page);
    InstallFile(x.file, sp.used, sp.swapAt, sp.mem, m.va, page);
  }

  /** A present page leaves RAM slot i and its frame. */
  function Remove(x: Proc, i: nat): Proc
    requires i < |x.ram| && x.ram[i].va in x.pte
  {
    var f := x.pte[x.ram[i].va].frame;
    x.(frames := x.frames - {f}, free := x.free + {f}, inMem := x.inMem - 1,
       ram := x.ram[i := Cleared(x.ram[i])], pte := x.pte - {x.ram[i].va})
  }

  function SpecRemove(x: Proc, sp: Spec, i: nat): Spec
    requires i < |x.ram| && x.ram[i].va in x.pte
  {
    var a := x.ram[i].va;
    sp.(mem := sp.mem - {a}, ramAt := sp.ramAt - {a}, own := sp.own - {x.pte[a].frame})
  }

  lemma RemoveFrames(frames: map<Frame, Page>, free: set<Frame>, pte: map<int, Pte>, own: map<Frame, int>,
                     mem: map<int, Page>, a: int)
    requires FramesOk(frames, free, pte, own, mem) && a in pte && pte[a].p
    ensures var f := pte[a].frame; FramesOk(frames - {f}, free + {f}, pte - {a}, own - {f}, mem - {a})
  {
  }

  lemma RemoveOk(x: Proc, sp: Spec, i: nat)
    requires Inv(x, sp) && i < |x.ram| && x.ram[i].occupied
    ensures x.ram[i].va in x.pte && Inv(Remove(x, i), SpecRemove(x, sp, i))
  {
    var a := x.ram[i].va;
    RamPage(x, sp, i);
    hide RamOk, SwapOk, PteOk, FramesOk, FileOk;
    assert sp.swapAt - {a} == sp.swapAt;
    RamGive(x.ram, x.inMem, x.pgdir, sp.ramAt, i);
    DropPte(x.pte, sp.mem, sp.ramAt, sp.swapAt, a);
    RemoveFrames(x.frames, x.free, x.pte, sp.own, sp.mem, a);
    DropFile(x.file, sp.used, sp.swapAt, sp.mem, a);
  }

  /** The two counters add up to the pages the process has. */
  lemma SwapCount(x: Proc, sp: Spec)
    requires Inv(x, sp)
    ensures x.inSwap == |sp.swapAt.Keys|
  {
    hide RamOk, PteOk, FramesOk, FileOk;
    AllPages(sp.swapAt, x.swap);
  }

  lemma CountersSum(x: Proc, sp: Spec)
    requires Inv(x, sp)
    ensures x.inMem + x.inSwap == |sp.mem.Keys|
  {
    hide FramesOk, FileOk;
    assert |sp.ramAt.Keys| == x.inMem by {
      AllPages(sp.ramAt, x.ram);
    }
    assert |sp.swapAt.Keys| == x.inSwap by {
      AllPages(sp.swapAt, x.swap);
    }
    PagesSplit(sp.mem, sp.ramAt, sp.swapAt);
  }

  lemma AllPages(at: map<int, int>, s: seq<Pmd>)
    requires forall a :: a in at ==> 0 <= at[a] < |s| && s[at[a]].occupied && s[at[a]].va == a
    requires forall i :: 0 <= i < |s| && s[i].occupied ==> s[i].va in at && at[s[i].va] == i
    ensures |at.Keys| == |Occ(s)|
  {
    CountPages(at, s, |s|);
    forall a | a in at ensures a in PagesBelow(s, |s|) {
      assert s[at[a]].va == a;
    }
    assert at.Keys <= PagesBelow(s, |s|);
    assert at.Keys == PagesBelow(s, |s|);
    assert Occ(s) == OccBelow(s, |s|);
  }

  lemma PagesSplit(mem: map<int, Page>, here: map<int, int>, away: map<int, int>)
    requires forall a :: a in mem ==> (a in here) == (a !in away)
    requires here.Keys <= mem.Keys && away.Keys <= mem.Keys
    ensures |mem.Keys| == |here.Keys| + |away.Keys|
  {
    forall a | a in mem ensures a in here.Keys + away.Keys {}
    assert mem.Keys <= here.Keys + away.Keys;
    forall a | a in here ensures a !in away {
      assert a in mem.Keys;
    }
    assert here.Keys !! away.Keys;
    assert mem.Keys == here.Keys + away.Keys;
  }

  /** Neither counter passes 16, and each counts its occupied slots. */
  lemma CountersBound(x: Proc, sp: Spec)
    requires Inv(x, sp)
    ensures |x.ram| == |x.swap| == MAX_PSYC_PAGES
    ensures x.inMem == |Occ(x.ram)| && x.inSwap == |Occ(x.swap)|
    ensures 0 <= x.inMem <= MAX_PSYC_PAGES && 0 <= x.inSwap <= MAX_PSYC_PAGES
    ensures x.inMem == MAX_PSYC_PAGES <==> forall i :: 0 <= i < |x.ram| ==> x.ram[i].occupied
    ensures x.inSwap == MAX_PSYC_PAGES <==> forall i :: 0 <= i < |x.swap| ==> x.swap[i].occupied
  {
    OccFull(x.ram);
    OccFull(x.swap);
  }

  // ---------------------------------------------------------------- the replacement heap

  const MAX_PRIO_ARR := 33
  const WORD := 0x1_0000_0000

  /** The elements are exactly one per slot of pr, with its priority. */
  ghost predicate HeapIs(m: multiset<HeapP>, pr: map<int, int>) {
    && |m| == |pr.Keys|
    && forall h :: m[h] == if h.index in pr && pr[h.index] == h.priority then 1 else 0
  }

  lemma HeapInsert(m: multiset<HeapP>, pr: map<int, int>, i: int, p: int)
    requires HeapIs(m, pr) && i !in pr
    ensures HeapIs(m + multiset{HeapP(i, p)}, pr[i := p])
  {
    NewKey(pr, i, p);
    assert pr[i := p].Keys == pr.Keys + {i};
  }

  /** pr for the first n pages of ord. */
  function Upto(pr: map<int, int>, ord: seq<int>, n: nat): map<int, int>
    requires n <= |ord|
  {
    map p | p in ord[..n] && p in pr :: pr[p]
  }

  lemma UptoNext(pr: map<int, int>, ord: seq<int>, n: nat)
    requires SecondChance.Order(pr, ord) && 0 < n <= |ord|
    ensures var p := ord[n - 1];
      && ord[..n] == ord[..n - 1] + [p] && p in pr
      && p !in Upto(pr, ord, n - 1) && Upto(pr, ord, n) == Upto(pr, ord, n - 1)[p := pr[p]]
  {
    var p := ord[n - 1];
    assert ord[..n] == ord[..n - 1] + [p];
    assert p !in ord[..n - 1];
  }

  lemma UptoAll(pr: map<int, int>, ord: seq<int>)
    requires SecondChance.Order(pr, ord)
    ensures ord[..|ord|] == ord && Upto(pr, ord, |ord|) == pr
  {
    assert ord[..|ord|] == ord;
    forall p | p in pr ensures p in Upto(pr, ord, |ord|) {
      assert p in ord;
    }
  }

  lemma {:induction false} ItemsHeap(pr: map<int, int>, ord: seq<int>, n: nat)
    requires SecondChance.Order(pr, ord) && n <= |ord|
    ensures HeapIs(multiset(SecondChance.Items(pr, ord[..n])), Upto(pr, ord, n))
  {
    hide HeapIs, SecondChance.Order, SecondChance.Items, Upto;
    if n == 0 {
      NoItems(pr, ord);
    } else {
      var p := ord[n - 1];
      ItemsHeap(pr, ord, n - 1);
      UptoNext(pr, ord, n);
      HeapInsert(multiset(SecondChance.Items(pr, ord[..n - 1])), Upto(pr, ord, n - 1), p, pr[p]);
      SecondChance.ItemsAppend(pr, ord[..n - 1], p);
    }
  }

  lemma NoItems(pr: map<int, int>, ord: seq<int>)
    ensures HeapIs(multiset(SecondChance.Items(pr, ord[..0])), Upto(pr, ord, 0))
  {
    assert SecondChance.Items(pr, ord[..0]) == [] && Upto(pr, ord, 0) == map[];
  }

  /** A heap of the second-chance policy is a heap of the process with the same slots: so
      updatePagesInPriorityQueue, which keeps them, changes no more than Reprioritize may. */
  lemma SecondChanceHeap(t: seq<HeapP>, pr: map<int, int>, ord: seq<int>)
    requires SecondChance.Holds(t, pr, ord)
    ensures HeapIs(multiset(t), pr)
  {
    hide HeapIs, SecondChance.Order, SecondChance.Items, Upto;
    ItemsHeap(pr, ord, |ord|);
    UptoAll(pr, ord);
  }

  lemma HeapDelete(m: multiset<HeapP>, pr: map<int, int>, h: HeapP)
    requires HeapIs(m, pr) && h in m
    ensures h.index in pr && HeapIs(m - multiset{h}, pr - {h.index})
  {
    assert m[h] == 1;
    assert (pr - {h.index}).Keys == pr.Keys - {h.index};
  }

  lemma HeapElement(t: seq<HeapP>, pr: map<int, int>, j: nat)
    requires HeapIs(multiset(t), pr) && j < |t|
    ensures t[j].index in pr
  {
    assert t[j] in multiset(t);
  }

  lemma LastLargest(t: seq<HeapP>, pr: map<int, int>, k: nat)
    requires HeapIs(multiset(t), pr) && k < |t| && forall j :: 0 <= j < |t| ==> t[j].priority <= t[k].priority
    ensures forall j :: j in pr ==> pr[j] <= t[k].priority
    ensures t[k].index in pr && pr[t[k].index] == t[k].priority
  {
    assert t[k] in multiset(t);
    forall j | j in pr ensures pr[j] <= t[k].priority {
      assert HeapP(j, pr[j]) in multiset(t);
      assert HeapP(j, pr[j]) in t;
    }
  }

  lemma RootLeast(t: seq<HeapP>, pr: map<int, int>)
    requires HeapIs(multiset(t), pr) && Heap(t) && t != []
    ensures t[0].index in pr && forall j :: j in pr ==> pr[t[0].index] <= pr[j]
  {
    RootAtMost(t);
    HeapElement(t, pr, 0);
    assert t[0] in multiset(t);
    forall j | j in pr ensures pr[t[0].index] <= pr[j] {
      assert HeapP(j, pr[j]) in multiset(t);
    }
  }

  /** In a heap of the second-chance policy the root is the first page in eviction order. */
  lemma RootFirst(t: seq<HeapP>, pr: map<int, int>, ord: seq<int>)
    requires SecondChance.Holds(t, pr, ord) && t != []
    ensures ord != [] && t[0].index == ord[0]
  {
    SecondChance.HoldsSize(t, pr, ord);
    RootAtMost(t);
    assert ord[0..] == ord;
    SecondChance.NextPage(t, pr, ord, 0, t[0]);
  }

  lemma HeapsEqual(m: multiset<HeapP>, n: multiset<HeapP>, pr: map<int, int>)
    requires HeapIs(m, pr) && HeapIs(n, pr)
    ensures m == n
  {
    forall h ensures m[h] == n[h] {}
  }

  lemma OrderRest(pr: map<int, int>, ord: seq<int>)
    requires SecondChance.Order(pr, ord) && ord != []
    ensures SecondChance.Order(pr - {ord[0]}, ord[1..])
  {
    forall i | 0 <= i < |ord| - 1 ensures ord[1..][i] == ord[i + 1] && pr[ord[0]] < pr[ord[i + 1]] {
    }
    forall p | p in pr - {ord[0]} ensures p in ord[1..] {
      var i :| 0 <= i < |ord| && ord[i] == p;
      assert ord[1..][i - 1] == p;
    }
  }

  lemma HoldsOrder(t: seq<HeapP>, pr: map<int, int>, ord: seq<int>)
    requires SecondChance.Holds(t, pr, ord)
    ensures SecondChance.Order(pr, ord)
  {
  }

  lemma OrderMore(pr: map<int, int>, ord: seq<int>, i: int, p: int)
    requires SecondChance.Order(pr, ord) && i !in pr && (forall j :: j in pr ==> pr[j] < p)
    ensures SecondChance.Order(pr[i := p], ord + [i])
  {
    var pr', o := pr[i := p], ord + [i];
    forall q | q in pr' ensures q in o {
      if q == i {
        assert o[|ord|] == i;
      } else {
        var k :| 0 <= k < |ord| && ord[k] == q;
        assert o[k] == q;
      }
    }
    forall k | 0 <= k < |ord| ensures o[k] == ord[k] && o[k] in pr && o[k] != i {
    }
  }

  /** A page with a priority above all others is the last to go. */
  lemma NewestLast(t: seq<HeapP>, pr: map<int, int>, ord: seq<int>, i: int, p: int)
    requires SecondChance.Order(pr, ord) && i !in pr && (forall j :: j in pr ==> pr[j] < p)
    requires Heap(t) && HeapIs(multiset(t), pr[i := p])
    ensures SecondChance.Holds(t, pr[i := p], ord + [i])
  {
    hide HeapIs, SecondChance.Items, Heap, SecondChance.Order;
    var pr', o := pr[i := p], ord + [i];
    OrderMore(pr, ord, i, p);
    ItemsHeap(pr', o, |o|);
    UptoAll(pr', o);
    HeapsEqual(multiset(t), multiset(SecondChance.Items(pr', o)), pr');
  }

  /** Without its first page the order is the rest of it. */
  lemma ShorterOrder(t: seq<HeapP>, pr: map<int, int>, pr': map<int, int>, ord: seq<int>)
    requires SecondChance.Order(pr, ord) && ord != [] && pr' == pr - {ord[0]} && Heap(t) && HeapIs(multiset(t), pr')
    ensures SecondChance.Holds(t, pr', ord[1..])
  {
    hide HeapIs, SecondChance.Order, SecondChance.Items, Heap;
    OrderRest(pr, ord);
    ItemsHeap(pr', ord[1..], |ord| - 1);
    UptoAll(pr', ord[1..]);
    HeapsEqual(multiset(t), multiset(SecondChance.Items(pr', ord[1..])), pr');
  }

  /** Only a's page left RAM, for the swap file. */
  ghost predicate WentOut(x: Proc, x': Proc, a: int) {
    && a in x.pte && x.pte[a].p && a in x'.pte && !x'.pte[a].p
    && x'.pte.Keys == x.pte.Keys && forall b :: b in x.pte && b != a && b in x'.pte ==> x'.pte[b] == x.pte[b]
  }

  lemma HeapSize(t: seq<HeapP>, pr: map<int, int>)
    requires HeapIs(multiset(t), pr)
    ensures |t| == |pr.Keys|
  {
    assert |multiset(t)| == |t|;
  }

  lemma HeapFinds(t: seq<HeapP>, pr: map<int, int>, i: int)
    requires HeapIs(multiset(t), pr)
    ensures i in pr <==> HasIndex(t, i)
    ensures i in pr ==> t != []
  {
    if i in pr {
      assert HeapP(i, pr[i]) in multiset(t);
      assert HeapP(i, pr[i]) in t;
    }
    if HasIndex(t, i) {
      var k :| 0 <= k < |t| && t[k].index == i;
      HeapElement(t, pr, k);
    }
  }

  // ---------------------------------------------------------------- vm.c

  const KERNBASE := 0x8000_0000

  /** PGROUNDUP, in pages. */
  function Pages(sz: nat): nat {
    (sz + PGSIZE - 1) / PGSIZE
  }

  lemma PagesAt(sz: nat, q: int)
    ensures q * PGSIZE < sz <==> q < Pages(sz)
  {
  }

  lemma PagesMono(a: nat, b: nat)
    requires a <= b
    ensures Pages(a) <= Pages(b)
  {
  }

  /** The flat memory after zeroed pages lo .. hi-1 are added. */
  function Grown(mem: map<int, Page>, lo: int, hi: int): map<int, Page>
    decreases hi - lo
  {
    if hi <= lo then mem else Grown(mem, lo, hi - 1)[hi - 1 := Volume.Zeros(PGSIZE)]
  }

  datatype Op = Grow(n: nat) | Load(va: int, off: nat) | Store(va: int, off: nat, b: byte)

  datatype Out = Done | Failed | Value(b: byte) | Killed | Panic

  /** One operation on a memory that never pages: sbrk of n more bytes, a load, a store.
      With fewer than sixteen frames to be had, that is how many pages it can have. */
  function FlatStep(frames: int, mem: map<int, Page>, sz: nat, op: Op): (map<int, Page>, nat, Out) {
    match op
    case Grow(n) =>
      if n == 0 then (mem, sz, Done)
      else if sz + n >= KERNBASE then (mem, sz, Failed)
      else if frames < MAX_PSYC_PAGES && Pages(sz + n) > frames then (mem, sz, Failed)
      else if Pages(sz + n) > MAX_TOTAL_PAGES then (mem, sz, Panic)
      else (Grown(mem, Pages(sz), Pages(sz + n)), sz + n, Done)
    case Load(va, off) =>
      if va in mem && off < |mem[va]| then (mem, sz, Value(mem[va][off])) else (mem, sz, Killed)
    case Store(va, off, b) =>
      if va in mem && off < |mem[va]| then (mem[va := mem[va][off := b]], sz, Done) else (mem, sz, Killed)
  }

  predicate Ends(o: Out) {
    o == Killed || o == Panic
  }

  /** The outcomes of a run, which ends when the process is killed or the kernel panics. */
  function FlatRun(frames: int, mem: map<int, Page>, sz: nat, ops: seq<Op>): seq<Out>
    decreases |ops|
  {
    if ops == [] then []
    else
      var (m, n, o) := FlatStep(frames, mem, sz, ops[0]);
      if Ends(o) then [o] else [o] + FlatRun(frames, m, n, ops[1..])
  }

  lemma GrownStep(mem: map<int, Page>, lo: int, hi: int)
    requires lo <= hi
    ensures Grown(mem, lo, lo) == mem
    ensures Grown(mem, lo, hi + 1) == Grown(mem, lo, hi)[hi := Volume.Zeros(PGSIZE)]
  {
  }

  lemma {:induction false} GrownKeys(mem: map<int, Page>, lo: int, hi: int, a: int)
    ensures a in Grown(mem, lo, hi) <==> a in mem || lo <= a < hi
    decreases hi - lo
  {
    if lo >= hi {
    } else {
      GrownKeys(mem, lo, hi - 1, a);
    }
  }

  /** A RAM slot is vacant and no frame is free. */
  predicate Starved(x: Proc) {
    x.inMem < MAX_PSYC_PAGES && x.free == {}
  }

  /** The page table says the page is paged out, but no swap slot has it. */
  predicate Lost(x: Proc, va: int) {
    && va in x.pte && !x.pte[va].p
    && forall k :: 0 <= k < |x.swap| && x.swap[k].occupied ==> x.swap[k].va != va
  }

  /** Swap slot k is given up; the page table still names its page. */
  function FreedSlot(x: Proc, k: nat): Proc
    requires k < |x.swap|
  {
    x.(swap := x.swap[k := x.swap[k].(occupied := false)], inSwap := x.inSwap - 1)
  }

  /** The process can have sixteen frames, or has nothing paged out. */
  predicate NeverStarved(x: Proc) {
    |x.free| + x.inMem >= MAX_PSYC_PAGES || x.inSwap == 0
  }

  lemma AllPresent(x: Proc, sp: Spec, va: int)
    requires Inv(x, sp) && NeverStarved(x)
    ensures va in x.pte && !x.pte[va].p ==> !Starved(x) && |x.free| + x.inMem >= MAX_PSYC_PAGES
  {
    SwappedOut(x, sp, va);
    if va in x.pte && !x.pte[va].p {
      assert sp.swapAt[va] in Occ(x.swap);
      assert x.inSwap != 0;
    }
  }

  lemma OnlySlotOf(x: Proc, sp: Spec, k: nat)
    requires Inv(x, sp) && k < |x.swap| && x.swap[k].occupied
    ensures Lost(FreedSlot(x, k), x.swap[k].va)
  {
    SwapPage(x, sp, k);
  }

  /** The frame that the entry of va named is free by now, though some other page, of this
      process if it was one of its frames, still has it. */
  ghost predicate FreedInUse(x: Proc, x': Proc, va: int)
    requires va in x.pte
  {
    var f := x.pte[va].frame;
    && f !in x.free && f in x'.free
    && (f in x.frames ==> exists b :: b in x'.pte && x'.pte[b].p && x'.pte[b].frame == f)
  }

  lemma OtherMapper(x: Proc, sp: Spec, va: int) returns (b: int)
    requires Inv(x, sp) && va in x.pte && !x.pte[va].p
    ensures x.pte[va].frame in x.frames ==> b != va && b in x.pte && x.pte[b].p && x.pte[b].frame == x.pte[va].frame
  {
    hide RamOk, SwapOk, PteOk, FileOk;
    b := if x.pte[va].frame in x.frames then sp.own[x.pte[va].frame] else va;
  }

  lemma SwapErase(swap: seq<Pmd>, n: int, pgdir: int, at: map<int, int>, k: nat)
    requires SwapOk(swap, n, pgdir, at) && k < |swap| && swap[k].occupied && -1 !in at
    ensures SwapOk(swap[k := Cleared(swap[k])], n - 1, pgdir, at - {swap[k].va})
  {
    OccUpdate(swap, k, Cleared(swap[k]));
  }

  /** Swap slot k is cleared, with the entry of its page. */
  lemma EraseOk(x: Proc, sp: Spec, k: nat)
    requires Inv(x, sp) && k < |x.swap| && x.swap[k].occupied
    ensures Inv(x.(inSwap := x.inSwap - 1, swap := x.swap[k := Cleared(x.swap[k])], pte := x.pte - {x.swap[k].va}),
                SpecVacate(x, sp, k))
  {
    hide RamOk, SwapOk, PteOk, FramesOk, FileOk;
    var a := x.swap[k].va;
    SwapPage(x, sp, k);
    SwappedOut(x, sp, -1);
    NoPageMinusOne(x, sp);
    assert sp.ramAt - {a} == sp.ramAt;
    SwapErase(x.swap, x.inSwap, x.pgdir, sp.swapAt, k);
    DropPte(x.pte, sp.mem, sp.ramAt, sp.swapAt, a);
    DropFrames(x.frames, x.free, x.pte, sp.own, sp.mem, a);
    DropFile(x.file, sp.used, sp.swapAt, sp.mem, a);
  }

  lemma NoPageMinusOne(x: Proc, sp: Spec)
    requires Inv(x, sp)
    ensures -1 !in sp.swapAt
  {
  }

  lemma StillLost(x: Proc, x': Proc, va: int)
    requires Lost(x, va) && x'.pte == x.pte && x'.swap == x.swap
    ensures Lost(x', va)
  {
  }

  lemma BroughtIn(x: Proc, sp: Spec, k: nat, i: nat, m: Pmd, f: Frame)
    requires Inv(x, sp) && k < |x.swap| && x.swap[k].occupied && i < |x.ram| && !x.ram[i].occupied
    requires m.occupied && m.pgdir == x.pgdir && m.va == x.swap[k].va && f in x.free
    ensures (k + 1) * PGSIZE <= |x.file|
    ensures var page := FilePage(x.file, k);
      var x', sp' := Install(FreedSlot(x, k), i, m, f, page), SpecInstall(SpecVacate(x, sp, k), i, m, f, page);
      && Inv(x', sp') && sp'.mem == sp.mem && |x'.free| + x'.inMem == |x.free| + x.inMem
      && m.va in x'.pte && x'.pte[m.va].p && x'.pgdir == x.pgdir
  {
    hide Inv;
    SwapPage(x, sp, k);
    var page := FilePage(x.file, k);
    VacateOk(x, sp, k);
    InstallOk(Vacate(x, k), SpecVacate(x, sp, k), i, m, f, page);
    Reinsert(x.pte, m.va, Pte(f, true, false));
    Reinsert(sp.mem, m.va, page);
  }

  /** How getting a page into RAM ends. */
  datatype Placed = Here | NoRoom | NoFrame

  function Least(a: int, b: int): int {
    if a < b then a else b
  }

  /** How growing by k pages ends, with so many frames free, pages in RAM and pages in all. */
  function Outgrown(free: int, inMem: int, pages: int, k: int): Placed {
    if free + inMem < MAX_PSYC_PAGES && k > free then NoFrame
    else if k > 0 && pages + k > MAX_TOTAL_PAGES then NoRoom
    else Here
  }

  /** The counters when d of the k pages are there. */
  predicate Halfway(free: int, inMem: int, pages: int, d: int, free': int, inMem': int, inSwap': int) {
    && free' >= 0 && free' + inMem' == free + inMem && inMem' == Least(MAX_PSYC_PAGES, inMem + d)
    && 0 <= inMem' <= MAX_PSYC_PAGES && 0 <= inSwap' <= MAX_PSYC_PAGES && inMem' + inSwap' == pages + d
  }

  lemma GrowthEnds(free: int, inMem: int, pages: int, k: int, d: int, free': int, inMem': int, inSwap': int)
    requires Halfway(free, inMem, pages, d, free', inMem', inSwap') && 0 <= d <= k
    ensures d < k && pages + d >= MAX_TOTAL_PAGES ==> Outgrown(free, inMem, pages, k) == NoRoom
    ensures d < k && inMem' < MAX_PSYC_PAGES && free' == 0 ==> Outgrown(free, inMem, pages, k) == NoFrame
    ensures d == k ==> Outgrown(free, inMem, pages, k) == Here
  {
  }

  /** The pages p .. b - 1 gone. */
  function Dropped(mem: map<int, Page>, p: int, b: int): map<int, Page> {
    map a | a in mem && !(p <= a < b) :: mem[a]
  }

  lemma DroppedNone(mem: map<int, Page>, p: int, q: int)
    ensures Dropped(Grown(mem, p, q), p, p) == Grown(mem, p, q)
  {
    hide Grown;
  }

  lemma DroppedNext(g: map<int, Page>, p: int, b: int)
    requires p <= b
    ensures Dropped(g, p, b + 1) == Dropped(g, p, b) - {b}
    ensures b !in Dropped(g, p, b) ==> Dropped(g, p, b + 1) == Dropped(g, p, b)
  {
  }

  lemma DroppedAll(mem: map<int, Page>, p: int, q: int, n: int)
    requires p <= q <= n && forall a :: a in mem ==> a < p
    ensures Dropped(Grown(mem, p, q), p, n) == mem
  {
    hide Grown;
    var g, d := Grown(mem, p, q), Dropped(Grown(mem, p, q), p, n);
    forall a
      ensures a in d <==> a in mem
      ensures a in mem ==> d[a] == mem[a]
    {
      GrownKeys(mem, p, q, a);
      if a in mem {
        GrownOld(mem, p, q, a);
      }
    }
  }

  lemma {:induction false} GrownOld(mem: map<int, Page>, lo: int, hi: int, a: int)
    requires a < lo && a in mem
    ensures a in Grown(mem, lo, hi) && Grown(mem, lo, hi)[a] == mem[a]
    decreases hi - lo
  {
    if hi <= lo {
    } else {
      GrownOld(mem, lo, hi - 1, a);
    }
  }

  lemma Counters(x: Proc, sp: Spec)
    requires Inv(x, sp)
    ensures 0 <= x.inMem <= MAX_PSYC_PAGES && 0 <= x.inSwap <= MAX_PSYC_PAGES
  {
    hide Inv;
    CountersBound(x, sp);
  }

  /** Where allocuvm's loop is when the pages up to q are there. */
  lemma GrowthPoint(x: Proc, sp: Spec, mem: map<int, Page>, p: int, q: int, n: int, free: int, inMem: int)
    requires Inv(x, sp) && sp.mem == Grown(mem, p, q) && p <= q <= n && (forall a :: a in mem ==> a < p)
    requires (forall a :: a in sp.mem ==> a < q)
    requires |x.free| + x.inMem == free + inMem && x.inMem == Least(MAX_PSYC_PAGES, inMem + q - p)
    ensures q !in x.pte && |sp.mem.Keys| == |mem.Keys| + q - p
    ensures Grown(mem, p, q + 1) == sp.mem[q := Volume.Zeros(PGSIZE)]
    ensures q < n && |sp.mem.Keys| >= MAX_TOTAL_PAGES ==> Outgrown(free, inMem, |mem.Keys|, n - p) == NoRoom
    ensures q < n && Starved(x) ==> Outgrown(free, inMem, |mem.Keys|, n - p) == NoFrame
    ensures Starved(x) ==> |x.free| + x.inMem < MAX_PSYC_PAGES
    ensures q == n ==> Outgrown(free, inMem, |mem.Keys|, n - p) == Here
    ensures 0 <= x.inMem <= MAX_PSYC_PAGES
  {
    hide Inv, Grown, Outgrown, Occ;
    SameKeys(x, sp);
    GrownSize(mem, p, q);
    GrownStep(mem, p, q);
    CountersSum(x, sp);
    Counters(x, sp);
    GrowthEnds(free, inMem, |mem.Keys|, n - p, q - p, |x.free|, x.inMem, x.inSwap);
  }

  lemma AwayBelow(x: Proc, sp: Spec, p: int)
    requires Inv(x, sp) && forall a :: a in sp.mem ==> a < p
    ensures forall a :: a in sp.swapAt ==> a < p
  {
  }

  /** How a user access ends: the page is in RAM; there is no such page; it is lost. */
  datatype Touched = Present | NoPage | Gone

  class Process {
    var x: Proc
    /** The size of the address space in bytes. */
    var sz: nat
    /** The replacement heap: the first prioSize cells of prioArr. */
    const prio: array<HeapP>
    var prioSize: nat
    ghost var sp: Spec
    ghost var pr: map<int, int>

    /** The heap holds exactly these slots, each once. */
    ghost predicate HeapFor(slots: set<int>)
      reads this`prioSize, this`pr, prio
    {
      && prio.Length == MAX_PRIO_ARR && prioSize <= prio.Length
      && HeapIs(multiset(prio[..prioSize]), pr) && pr.Keys == slots
    }

    /** The heap's indices are the occupied RAM slots. */
    ghost predicate Valid()
      reads this, prio
    {
      Inv(x, sp) && HeapFor(Occ(x.ram))
    }

    /** allocproc: no page yet, every slot vacant, an empty swap file. */
    constructor (pgdir: int, free: set<Frame>)
      ensures Valid() && fresh(prio) && sp.mem == map[] && sz == 0 && x.free == free && x.pgdir == pgdir
    {
      sz, prioSize, pr := 0, 0, map[];
      prio := new HeapP[MAX_PRIO_ARR](_ => NONE);
      var none := seq(MAX_PSYC_PAGES, _ => Pmd(-1, false, 0, 0, 0));
      x := Proc(pgdir, none, none, 0, 0, map[], map[], free, []);
      sp := Spec(map[], map[], map[], map[], 0);
      new;
      assert Occ(none) == {};
    }

    /** getPageIndexDefault: the lowest slot with the given occupancy and, unless va is -1,
        the given page. */
    method GetPageIndexDefault(inSwapFile: bool, isOccupied: bool, va: int) returns (c: int)
      ensures var pg := if inSwapFile then x.swap else x.ram;
        && -1 <= c < |pg|
        && (c >= 0 ==> pg[c].occupied == isOccupied && (va == -1 || pg[c].va == va))
        && forall j :: 0 <= j < (if c == -1 then |pg| else c) ==>
             !(pg[j].occupied == isOccupied && (va == -1 || pg[j].va == va))
    {
      var pg := if inSwapFile then x.swap else x.ram;
      c := 0;
      while c < |pg|
        invariant 0 <= c <= |pg|
        invariant forall j :: 0 <= j < c ==> !(pg[j].occupied == isOccupied && (va == -1 || pg[j].va == va))
      {
        if pg[c].occupied == isOccupied && (va == -1 || pg[c].va == va) {
          return;
        }
        c := c + 1;
      }
      c := -1;
    }

    /** getPageIndex for an occupied RAM slot: the index at the root of the heap, which in a
        heap is a slot of least priority. */
    method Victim() returns (i: int)
      requires HeapFor(Occ(x.ram)) && |x.ram| == MAX_PSYC_PAGES
      ensures i == -1 <==> Occ(x.ram) == {}
      ensures i != -1 ==> 0 <= i < |x.ram| && x.ram[i].occupied && prioSize > 0 && i == prio[0].index
      ensures i != -1 && Heap(prio[..prioSize]) ==> i in pr && forall j :: j in pr ==> pr[i] <= pr[j]
    {
      if prioSize == 0 {
        return -1;
      }
      HeapElement(prio[..prioSize], pr, 0);
      assert prio[..prioSize][0] == prio[0];
      if Heap(prio[..prioSize]) {
        RootLeast(prio[..prioSize], pr);
      }
      return prio[0].index;
    }

    /** deleteRoot of a slot the heap holds. */
    method HeapRemove(i: int, ghost slots: set<int>)
      requires HeapFor(slots) && i in slots
      modifies this`prioSize, this`pr, prio
      ensures HeapFor(slots - {i}) && pr == old(pr) - {i} && Heap(prio[..prioSize])
    {
      ghost var t := prio[..prioSize];
      HeapFinds(t, pr, i);
      hide Heap, HeapIs, HasIndex;
      var out;
      out, prioSize := DeleteRoot(prio, prioSize, i);
      HeapDelete(multiset(t), pr, out);
      pr := pr - {i};
    }

    /** insertPageToPrioQueue: behind the largest priority the scan of the leaves finds. A
        slot new to the heap is not found by findInHeap, so nothing is deleted first. */
    method InsertPageToPrioQueue(i: int, ghost slots: set<int>)
      requires HeapFor(slots) && i !in slots && |slots| < MAX_PSYC_PAGES
      modifies this`prioSize, this`pr, prio
      ensures HeapFor(slots + {i}) && i in pr && pr == old(pr)[i := pr[i]] && Heap(prio[..prioSize])
      ensures old(Heap(prio[..prioSize]) && (forall k :: k in pr ==> 0 <= pr[k] < WORD - 1)) ==>
        forall j :: j in old(pr) ==> old(pr)[j] < pr[i]
    {
      hide Heap, HasIndex, HeapIs;
      ghost var t := prio[..prioSize];
      HeapFinds(t, pr, i);
      HeapSize(t, pr);
      var found, _ := FindInHeap(prio, prioSize, i);
      assert found == NONE && prio[..prioSize] == t;
      var p := NextPriority(slots);
      HeapInsert(multiset(t), pr, i, p);
      prioSize := InsertHeap(prio, prioSize, HeapP(i, p));
      pr := pr[i := p];
    }

    /** The priority of a page inserted now; behind every other if the array is a heap. */
    method NextPriority(ghost slots: set<int>) returns (p: int)
      requires HeapFor(slots)
      ensures Heap(prio[..prioSize]) && (forall k :: k in pr ==> 0 <= pr[k] < WORD - 1) ==>
        forall j :: j in pr ==> pr[j] < p
    {
      var last := FindMaxElementIndex(prio, prioSize);
      p := (prio[last].priority + 1) % WORD;
      ghost var t := prio[..prioSize];
      if Heap(t) && prioSize > 0 {
        assert prio[last] == t[last];
        LastLargest(t, pr, last);
      }
    }

    /** What increaseProcAge and updatePagesInPriorityQueue may do to the heap, whatever the
        policy: any change of priorities, then perhaps rebuilding. */
    method Reprioritize(rebuild: bool, ghost slots: set<int>)
      requires HeapFor(slots)
      modifies this`pr, prio
      ensures HeapFor(slots)
    {
      var j := 0;
      while j < prioSize
        invariant 0 <= j <= prioSize && HeapFor(slots)
      {
        var p: int := *;
        ChangePriority(j, p, slots);
        j := j + 1;
      }
      if rebuild {
        hide HeapIs;
        RebuildArray(prio, prioSize);
      }
    }

    method ChangePriority(j: nat, p: int, ghost slots: set<int>)
      requires HeapFor(slots) && j < prioSize
      modifies this`pr, prio
      ensures HeapFor(slots)
    {
      ghost var t := prio[..prioSize];
      ghost var h, h' := t[j], HeapP(t[j].index, p);
      assert h in multiset(t);
      HeapDelete(multiset(t), pr, h);
      HeapInsert(multiset(t) - multiset{h}, pr - {h.index}, h.index, p);
      hide HeapIs;
      prio[j] := HeapP(prio[j].index, p);
      assert prio[..prioSize] == t[j := h'];
      Reinsert(pr, h.index, p);
      pr := pr[h.index := p];
    }

    /** getPagePgdirIndex, which ignores the occupied flag, still finds the slot where the
        page lives. */
    method GetPagePgdirIndex(inSwapFile: bool, va: int) returns (c: int)
      requires Inv(x, sp)
      ensures inSwapFile && va in sp.swapAt ==> c == sp.swapAt[va]
      ensures !inSwapFile && va in sp.ramAt ==> c == sp.ramAt[va]
      ensures !inSwapFile && va != -1 && va !in sp.ramAt ==> c == -1
      ensures inSwapFile && va !in sp.swapAt && c != -1 ==> 0 <= c < |x.swap| && !x.swap[c].occupied
    {
      var pg := if inSwapFile then x.swap else x.ram;
      c := 0;
      while c < |pg|
        invariant 0 <= c <= |pg|
        invariant forall j :: 0 <= j < c ==> !(pg[j].pgdir == x.pgdir && pg[j].va == va)
      {
        if pg[c].pgdir == x.pgdir && pg[c].va == va {
          return;
        }
        c := c + 1;
      }
      c := -1;
    }

    method KallocFrame() returns (f: Frame)
      requires |x.free| > 0
      ensures f in x.free
    {
      f :| f in x.free;
    }

    /** writeToSwapFile: filewrite and writei, with writei's rejections. */
    method WriteToSwapFile(page: Page, off: nat) returns (n: int)
      modifies this`x
      ensures n == -1 <==> off > |old(x).file| || off + |page| > Volume.MAXBYTES
      ensures n != -1 ==> n == |page| && x == old(x).(file := Fs.Splice(old(x).file, off, page))
      ensures n == -1 ==> x == old(x)
    {
      if off > |x.file| || off + |page| > Volume.MAXBYTES {
        return -1;
      }
      x := x.(file := Fs.Splice(x.file, off, page));
      return |page|;
    }

    /** pageToSwapFile; the swap write it does is never rejected. */
    method PageToSwapFile(memIndex: nat, swapIndex: nat)
      requires memIndex < |x.ram| && swapIndex < |x.swap| <= MAX_PSYC_PAGES
      requires x.ram[memIndex].va in x.pte && x.pte[x.ram[memIndex].va].frame in x.frames
      requires |x.frames[x.pte[x.ram[memIndex].va].frame]| == PGSIZE && swapIndex * PGSIZE <= |x.file|
      requires x.ram[memIndex].occupied && HeapFor(Occ(x.ram))
      modifies this`x, this`prioSize, this`pr, prio
      ensures x == PageOut(old(x), memIndex, swapIndex)
      ensures HeapFor(Occ(x.ram)) && Occ(x.ram) == Occ(old(x).ram) - {memIndex}
      ensures pr == old(pr) - {memIndex} && Heap(prio[..prioSize])
    {
      hide Process.HeapFor, Occ, Heap;
      OccUpdate(x.ram, memIndex, Cleared(x.ram[memIndex]));
      var m := x.ram[memIndex];
      var to := x.swap[swapIndex].(pgdir := m.pgdir, offset := swapIndex * PGSIZE, occupied := true, va := m.va);
      x := x.(swap := x.swap[swapIndex := to], inSwap := x.inSwap + 1);
      HeapRemove(memIndex, Occ(x.ram));
      x := x.(ram := x.ram[memIndex := Cleared(m)], inMem := x.inMem - 1);
      var pa := x.pte[m.va].frame;
      var n := WriteToSwapFile(x.frames[pa], swapIndex * PGSIZE);
      assert n == PGSIZE;
      x := x.(frames := x.frames - {pa}, free := x.free + {pa});
      x := x.(pte := x.pte[m.va := x.pte[m.va].(p := false, pg := true)]);
    }

    /** Moves the page of the heap's root out to the lowest vacant swap slot. */
    method Evict()
      requires Valid() && x.inMem == MAX_PSYC_PAGES && x.inSwap < MAX_PSYC_PAGES
      modifies this`x, this`sp, this`prioSize, this`pr, prio
      ensures Valid() && sp.mem == old(sp.mem) && x.inMem == old(x.inMem) - 1 && x.inSwap == old(x.inSwap) + 1
      ensures |x.free| == |old(x.free)| + 1 && x.pgdir == old(x.pgdir)
      ensures forall b :: b in old(sp.swapAt) ==> b in sp.swapAt
      ensures var i := old(prio[0]).index;
        && 0 <= i < |old(x).ram| && old(x).ram[i].occupied && WentOut(old(x), x, old(x).ram[i].va)
        && pr == old(pr) - {i}
      ensures Heap(prio[..prioSize])
    {
      hide RamOk, SwapOk, PteOk, FramesOk, FileOk, Process.HeapFor, Heap;
      CountersBound(x, sp);
      var i := Victim();
      var k := GetPageIndexDefault(true, false, -1);
      assert x.ram[0].occupied;
      RamPage(x, sp, i);
      PageOutOk(x, sp, i, k);
      ghost var sq := SpecOut(x, sp, i, k);
      PageToSwapFile(i, k);
      sp := sq;
    }

    /** allocuvm's eviction under the second-chance policy: after the look at the accessed
        bits, the page that goes out is the oldest not accessed or, if all were accessed,
        the oldest. */
    method EvictSecondChance(accessed: set<int>, ghost ord: seq<int>) returns (accessed': set<int>)
      requires Valid() && x.inMem == MAX_PSYC_PAGES && x.inSwap < MAX_PSYC_PAGES
      requires SecondChance.Holds(prio[..prioSize], pr, ord)
      requires forall p :: p in pr ==> 0 <= pr[p] && pr[p] + prioSize < WORD
      modifies this`x, this`sp, this`prioSize, this`pr, prio
      ensures Valid() && sp.mem == old(sp.mem)
      ensures var next := SecondChance.Keep(ord, accessed, false) + SecondChance.Keep(ord, accessed, true);
        && next != [] && 0 <= next[0] < |old(x).ram| && old(x).ram[next[0]].occupied
        && WentOut(old(x), x, old(x).ram[next[0]].va)
        && SecondChance.Holds(prio[..prioSize], pr, next[1..])
      ensures forall p :: p in accessed' <==> p in accessed && p !in old(pr)
    {
      hide Inv, Heap, HeapIs, SecondChance.Holds, SecondChance.Keep, WentOut;
      ghost var next := SecondChance.Keep(ord, accessed, false) + SecondChance.Keep(ord, accessed, true);
      RamFull();
      ghost var pr';
      accessed', pr' := SecondChance.UpdatePages(prio, prioSize, accessed, pr, ord);
      pr := pr';
      SecondChanceHeap(prio[..prioSize], pr, next);
      RootFirst(prio[..prioSize], pr, next);
      HoldsOrder(prio[..prioSize], pr, next);
      assert prio[..prioSize][0] == prio[0];
      Evict();
      ShorterOrder(prio[..prioSize], pr', pr, next);
    }

    lemma RamFull()
      requires Valid() && x.inMem == MAX_PSYC_PAGES
      ensures prioSize > 0
    {
      CountersBound(x, sp);
      assert 0 in Occ(x.ram);
      HeapFinds(prio[..prioSize], pr, 0);
    }

    /** readFromSwapFile of one page. */
    method ReadFromSwapFile(off: nat) returns (page: Page)
      requires off + PGSIZE <= |x.file|
      ensures page == x.file[off..off + PGSIZE]
    {
      page := x.file[off..off + PGSIZE];
    }

    /** What allocuvm, onPageFaultPG and swapPages share: a frame from kalloc gets the page,
        mappages maps it, and the RAM slot and the heap get its record. */
    method PlacePage(i: nat, m: Pmd, page: Page) returns (f: Frame)
      requires i < |x.ram| && !x.ram[i].occupied && m.occupied && |x.free| > 0
      requires HeapFor(Occ(x.ram)) && |Occ(x.ram)| < MAX_PSYC_PAGES
      modifies this`x, this`prioSize, this`pr, prio
      ensures f in old(x).free && x == Install(old(x), i, m, f, page) && HeapFor(Occ(x.ram))
    {
      hide Process.HeapFor;
      f := KallocFrame();
      x := x.(free := x.free - {f}, frames := x.frames[f := page]);
      x := x.(pte := x.pte[m.va := Pte(f, true, false)]);
      OccUpdate(x.ram, i, m);
      InsertPageToPrioQueue(i, Occ(x.ram));
      x := x.(ram := x.ram[i := m]);
      x := x.(inMem := x.inMem + 1);
    }

    /** swapPages: both sides are full, so the faulting page and the victim trade places
        through a buffer. */
    method SwapPages(memIndex: nat, swapIndex: nat)
      requires Valid() && x.inSwap == MAX_PSYC_PAGES
      requires memIndex < |x.ram| && x.ram[memIndex].occupied && swapIndex < |x.swap|
      modifies this`x, this`sp, this`prioSize, this`pr, prio
      ensures Valid() && sp.mem == old(sp.mem) && x.inMem == old(x.inMem) && |x.free| == |old(x.free)|
      ensures x.pgdir == old(x.pgdir)
      ensures var a := old(x).swap[swapIndex].va; a in x.pte && x.pte[a].p
    {
      hide RamOk, SwapOk, PteOk, FramesOk, FileOk, Process.HeapFor;
      CountersBound(x, sp);
      RamPage(x, sp, memIndex);
      SwapPage(x, sp, swapIndex);
      ghost var x1, sp1 := Vacate(x, swapIndex), SpecVacate(x, sp, swapIndex);
      VacateOk(x, sp, swapIndex);
      PageOutOk(x1, sp1, memIndex, swapIndex);
      ghost var x2, sp2 := PageOut(x1, memIndex, swapIndex), SpecOut(x1, sp1, memIndex, swapIndex);

      var tmp := x.swap[swapIndex];
      var swapBuffer := ReadFromSwapFile(x.swap[swapIndex].offset);
      PageToSwapFile(memIndex, swapIndex);
      x := x.(inSwap := x.inSwap - 1);
      Reprioritize(false, Occ(x.ram));
      var f := PlacePage(memIndex, tmp, swapBuffer);

      InstallOk(x2, sp2, memIndex, tmp, f, swapBuffer);
      Trade(old(x.pte), old(x).ram[memIndex].va, tmp.va, x2.pte[old(x).ram[memIndex].va], Pte(f, true, false));
      assert x.swap == x2.swap;
      Reinsert(sp.mem, tmp.va, swapBuffer);
      sp := SpecInstall(sp2, memIndex, tmp, f, swapBuffer);
    }

    /** onPageFaultPG: the page comes back with the contents it had, and no page changes.
        With a RAM slot vacant and no frame free its swap slot is given up for nothing: the
        page is then neither in RAM nor in the swap file. */
    method OnPageFaultPG(va: int) returns (ok: bool)
      requires Valid() && va in x.pte && !x.pte[va].p
      modifies this`x, this`sp, this`prioSize, this`pr, prio
      ensures ok <==> !Starved(old(x))
      ensures ok ==> Valid() && sp.mem == old(sp.mem) && |x.free| + x.inMem == old(|x.free| + x.inMem)
      ensures ok ==> va in x.pte && x.pte[va].p && x.pgdir == old(x.pgdir)
      ensures !ok ==> Lost(x, va)
    {
      hide RamOk, SwapOk, PteOk, FramesOk, FileOk, Process.HeapFor;
      CountersBound(x, sp);
      SwappedOut(x, sp, va);
      assert x.inMem + x.inSwap <= MAX_TOTAL_PAGES;
      if x.inMem == MAX_PSYC_PAGES {
        if x.inSwap == MAX_PSYC_PAGES {
          var i := Victim();
          var k := GetPageIndexDefault(true, true, va);
          assert x.ram[0].occupied;
          SwapPages(i, k);
          return true;
        }
        Evict();
      }
      ok := BringIn(va);
    }

    /** The page in some swap slot moves to the lowest vacant RAM slot. */
    method BringIn(va: int) returns (ok: bool)
      requires Valid() && va in sp.swapAt && x.inMem < MAX_PSYC_PAGES
      modifies this`x, this`sp, this`prioSize, this`pr, prio
      ensures ok <==> old(x).free != {}
      ensures ok ==> Valid() && sp.mem == old(sp.mem) && |x.free| + x.inMem == old(|x.free| + x.inMem)
      ensures ok ==> va in x.pte && x.pte[va].p && x.pgdir == old(x.pgdir)
      ensures !ok ==> Lost(x, va)
    {
      hide Inv, Process.HeapFor, Lost, Install, SpecInstall, SpecVacate, Occ;
      CountersBound(x, sp);
      SwappedOut(x, sp, va);
      var k := GetPageIndexDefault(true, true, va);
      SwapPage(x, sp, k);
      OnlySlotOf(x, sp, k);
      x := x.(swap := x.swap[k := x.swap[k].(occupied := false)], inSwap := x.inSwap - 1);
      Reprioritize(false, Occ(x.ram));
      var i := GetPageIndexDefault(false, false, -1);
      var m := x.ram[i].(va := va, pgdir := x.pgdir, occupied := true);
      if |x.free| == 0 {
        OccUpdate(x.ram, i, m);
        InsertPageToPrioQueue(i, Occ(x.ram));
        x := x.(ram := x.ram[i := m]);
        StillLost(FreedSlot(old(x), k), x, va);
        return false;
      }
      var buffer := ReadFromSwapFile(x.swap[k].offset);
      var f := PlacePage(i, m, buffer);
      assert buffer == FilePage(old(x).file, k);
      BroughtIn(old(x), sp, k, i, m, f);
      sp := SpecInstall(SpecVacate(old(x), sp, k), i, m, f, buffer);
      return true;
    }

    /** One turn of allocuvm's loop: a zeroed page appears at va. Without room in RAM and
        swap the kernel panics, which is exactly when the process already has 32 pages;
        with a RAM slot vacant and no frame free nothing changes. */
    method AllocPage(va: int) returns (r: Placed)
      requires Valid() && va >= 0 && va !in x.pte
      modifies this`x, this`sp, this`prioSize, this`pr, prio
      ensures Valid() && |x.free| + x.inMem == old(|x.free| + x.inMem) && x.pgdir == old(x.pgdir)
      ensures r.NoRoom? <==> |old(sp.mem).Keys| >= MAX_TOTAL_PAGES
      ensures r.NoFrame? <==> Starved(old(x))
      ensures sp.mem == if r.Here? then old(sp.mem)[va := Volume.Zeros(PGSIZE)] else old(sp.mem)
      ensures r.Here? ==> |sp.mem.Keys| == |old(sp.mem).Keys| + 1 && va in x.pte && x.pte[va].p
      ensures r.Here? ==> x.inMem == Least(MAX_PSYC_PAGES, old(x).inMem + 1)
      ensures old(x).inMem < MAX_PSYC_PAGES ==> sp.swapAt == old(sp.swapAt)
    {
      hide RamOk, SwapOk, PteOk, FramesOk, FileOk, Process.HeapFor;
      CountersBound(x, sp);
      CountersSum(x, sp);
      SameKeys(x, sp);
      if x.inMem >= MAX_PSYC_PAGES {
        if x.inSwap == MAX_TOTAL_PAGES - MAX_PSYC_PAGES {
          return NoRoom;
        }
        Reprioritize(true, Occ(x.ram));
        Evict();
        SameKeys(x, sp);
      }
      if |x.free| == 0 {
        return NoFrame;
      }
      CountersBound(x, sp);
      ghost var x1 := x;
      var page := Volume.Zeros(PGSIZE);
      var i := GetPageIndexDefault(false, false, -1);
      var m := x.ram[i].(va := va, pgdir := x.pgdir, occupied := true);
      var f := PlacePage(i, m, page);
      InstallOk(x1, sp, i, m, f, page);
      NewKey(sp.mem, va, page);
      sp := SpecInstall(sp, i, m, f, page);
      return Here;
    }

    /** allocuvm's loop, and its undoing when a frame is missing: by then no page has been
        paged out, so all the new ones are present. */
    method AllocPages(oldsz: nat, newsz: nat) returns (r: Placed)
      requires Valid() && oldsz <= newsz && forall a :: a in sp.mem ==> a < Pages(oldsz)
      modifies this`x, this`sp, this`prioSize, this`pr, prio
      ensures Valid() && |x.free| + x.inMem == old(|x.free| + x.inMem)
      ensures r == Outgrown(|old(x).free|, old(x).inMem, |old(sp.mem).Keys|, Pages(newsz) - Pages(oldsz))
      ensures r.Here? ==> sp.mem == Grown(old(sp.mem), Pages(oldsz), Pages(newsz))
      ensures r.Here? ==> x.inMem == Least(MAX_PSYC_PAGES, old(x).inMem + Pages(newsz) - Pages(oldsz))
      ensures r.NoFrame? ==> sp.mem == old(sp.mem)
      ensures |x.free| + x.inMem < MAX_PSYC_PAGES ==> sp.swapAt == old(sp.swapAt)
    {
      hide Inv, Pages, Grown, Process.HeapFor, Outgrown, Occ, Starved;
      ghost var p, q := Pages(oldsz), Pages(oldsz);
      ghost var f0, m0 := |x.free|, x.inMem;
      GrownStep(sp.mem, p, p);
      PagesAt(oldsz, p);
      PagesMono(oldsz, newsz);
      Counters(x, sp);
      var a := Pages(oldsz) * PGSIZE;
      while a < newsz
        invariant a == q * PGSIZE && p <= q <= Pages(newsz)
        invariant Valid() && |x.free| + x.inMem == old(|x.free| + x.inMem)
        invariant sp.mem == Grown(old(sp.mem), p, q)
        invariant forall b :: b in sp.mem ==> b < q
        invariant x.inMem == Least(MAX_PSYC_PAGES, m0 + q - p)
        invariant |x.free| + x.inMem < MAX_PSYC_PAGES ==> sp.swapAt == old(sp.swapAt)
      {
        PagesAt(newsz, q);
        GrowthPoint(x, sp, old(sp.mem), p, q, Pages(newsz), f0, m0);
        r := AllocPage(a / PGSIZE);
        if r.NoRoom? {
          return;
        }
        if r.NoFrame? {
          AwayBelow(old(x), old(sp), p);
          DropNew(Pages(oldsz), Pages(newsz), q, old(sp.mem));
          return;
        }
        a, q := a + PGSIZE, q + 1;
      }
      PagesAt(newsz, q);
      GrowthPoint(x, sp, old(sp.mem), p, q, Pages(newsz), f0, m0);
      return Here;
    }

    /** The undoing: deallocuvm over pages p .. n - 1, of which those below q are there. */
    method DropNew(p: nat, n: nat, ghost q: nat, ghost mem: map<int, Page>)
      requires Valid() && p <= q <= n && sp.mem == Grown(mem, p, q)
      requires (forall a :: a in mem ==> a < p) && forall a :: a in sp.swapAt ==> a < p
      modifies this`x, this`sp, this`prioSize, this`pr, prio
      ensures Valid() && |x.free| + x.inMem == old(|x.free| + x.inMem)
      ensures sp.mem == mem && sp.swapAt == old(sp.swapAt)
    {
      hide Inv, Process.HeapFor, Grown;
      DroppedNone(mem, p, q);
      var b := p;
      while b < n
        invariant p <= b <= n && Valid() && |x.free| + x.inMem == old(|x.free| + x.inMem)
        invariant sp.swapAt == old(sp.swapAt) && sp.mem == Dropped(Grown(mem, p, q), p, b)
      {
        SameKeys(x, sp);
        SwappedOut(x, sp, b);
        DroppedNext(Grown(mem, p, q), p, b);
        if b in x.pte {
          DeallocPresent(b);
        }
        b := b + 1;
      }
      DroppedAll(mem, p, q, n);
    }

    /** allocuvm, sizes in bytes: all the new pages are zero and no other page changes. It
        panics (ok is false) exactly when the process would pass 32 pages, and fails,
        leaving every page as it was, exactly when the new pages outnumber the free frames
        before RAM is full. */
    method Allocuvm(oldsz: nat, newsz: nat) returns (ok: bool, r: nat)
      requires Valid() && forall a :: a in sp.mem ==> a < Pages(oldsz)
      modifies this`x, this`sp, this`prioSize, this`pr, prio
      ensures Valid() && |x.free| + x.inMem == old(|x.free| + x.inMem)
      ensures newsz >= KERNBASE ==> ok && r == 0 && sp.mem == old(sp.mem)
      ensures newsz < KERNBASE && newsz < oldsz ==> ok && r == oldsz && sp.mem == old(sp.mem)
      ensures oldsz <= newsz < KERNBASE ==>
        var o := Outgrown(|old(x).free|, old(x).inMem, |old(sp.mem).Keys|, Pages(newsz) - Pages(oldsz));
        && ok == !o.NoRoom?
        && (o.Here? ==> r == newsz && sp.mem == Grown(old(sp.mem), Pages(oldsz), Pages(newsz)))
        && (o.NoFrame? ==> r == 0 && sp.mem == old(sp.mem))
      ensures |x.free| + x.inMem < MAX_PSYC_PAGES ==> sp.swapAt == old(sp.swapAt)
    {
      hide Inv, Pages, Grown, Process.HeapFor;
      if newsz >= KERNBASE {
        return true, 0;
      }
      if newsz < oldsz {
        return true, oldsz;
      }
      var o := AllocPages(oldsz, newsz);
      return !o.NoRoom?, if o.NoFrame? then 0 else newsz;
    }

    /** A user access to page va, with the fault it may take: NoPage when onPageFault kills
        the process. */
    method Touch(va: int) returns (r: Touched)
      requires Valid()
      modifies this`x, this`sp, this`prioSize, this`pr, prio
      ensures r.NoPage? <==> va !in old(sp.mem)
      ensures r.Gone? <==> va in old(x).pte && !old(x).pte[va].p && Starved(old(x))
      ensures !r.Gone? ==> Valid() && sp.mem == old(sp.mem) && |x.free| + x.inMem == old(|x.free| + x.inMem)
      ensures r.Present? ==> va in x.pte && x.pte[va].p
      ensures !(va in old(x).pte && !old(x).pte[va].p) ==> x == old(x)
      ensures r.Gone? ==> Lost(x, va)
    {
      hide Inv, Process.HeapFor, Lost;
      SameKeys(x, sp);
      if va !in x.pte {
        return NoPage;
      }
      if !x.pte[va].p {
        Reprioritize(true, Occ(x.ram));
        var ok := OnPageFaultPG(va);
        return if ok then Present else Gone;
      }
      return Present;
    }

    method LoadByte(va: int, off: nat) returns (alive: bool, b: byte)
      requires Valid() && NeverStarved(x) && off < PGSIZE
      modifies this`x, this`sp, this`prioSize, this`pr, prio
      ensures Valid() && sp.mem == old(sp.mem) && |x.free| + x.inMem == old(|x.free| + x.inMem)
      ensures NeverStarved(x)
      ensures alive == (va in sp.mem)
      ensures alive ==> |sp.mem[va]| == PGSIZE && b == sp.mem[va][off]
    {
      AllPresent(x, sp, va);
      var r := Touch(va);
      alive, b := r.Present?, 0;
      if alive {
        b := x.frames[x.pte[va].frame][off];
      }
    }

    method StoreByte(va: int, off: nat, b: byte) returns (alive: bool)
      requires Valid() && NeverStarved(x) && off < PGSIZE
      modifies this`x, this`sp, this`prioSize, this`pr, prio
      ensures Valid() && |x.free| + x.inMem == old(|x.free| + x.inMem)
      ensures NeverStarved(x)
      ensures alive == (va in old(sp.mem))
      ensures !alive ==> sp.mem == old(sp.mem)
      ensures alive ==> |old(sp.mem)[va]| == PGSIZE && sp.mem == old(sp.mem)[va := old(sp.mem)[va][off := b]]
    {
      hide Inv, Process.HeapFor, Lost;
      AllPresent(x, sp, va);
      var r := Touch(va);
      alive := r.Present?;
      if alive {
        StoreOk(x, sp, va, off, b);
        var f := x.pte[va].frame;
        x := x.(frames := x.frames[f := x.frames[f][off := b]]);
        sp := sp.(mem := sp.mem[va := sp.mem[va][off := b]]);
      }
    }

    /** The frames this process has or can get. */
    ghost function Frames(): int
      reads this
    {
      |x.free| + x.inMem
    }

    /** The address space is exactly the pages below sz, and nothing is paged out unless the
        process can have sixteen frames. */
    ghost predicate Ready()
      reads this, prio
    {
      && Valid() && NeverStarved(x)
      && (forall a :: a in sp.mem <==> 0 <= a < Pages(sz))
      && |sp.mem.Keys| == Pages(sz) <= MAX_TOTAL_PAGES
    }

    /** growproc of n >= 0 bytes. */
    method Growproc(n: nat) returns (o: Out)
      requires Ready()
      modifies this, prio
      ensures var flat := FlatStep(old(Frames()), old(sp.mem), old(sz), Grow(n));
        (sp.mem, sz, o) == flat || o == flat.2 == Panic
      ensures o != Panic ==> Ready() && Frames() == old(Frames())
    {
      hide Inv, Pages, Process.HeapFor, Grown;
      if n == 0 {
        return Done;
      }
      ghost var mem, p := sp.mem, Pages(sz);
      CountersSum(x, sp);
      var ok, r := Allocuvm(sz, sz + n);
      PagesMono(old(sz), old(sz) + n);
      if !ok {
        return Panic;
      }
      SwapCount(x, sp);
      SwapCount(old(x), old(sp));
      if r == 0 {
        return Failed;
      }
      GrownSize(mem, p, Pages(r));
      forall a ensures a in sp.mem <==> 0 <= a < Pages(r) {
        GrownKeys(mem, p, Pages(r), a);
      }
      sz := r;
      return Done;
    }

    /** One user operation, as the flat memory does it. */
    method Step(op: Op) returns (o: Out)
      requires Ready() && (op.Grow? || op.off < PGSIZE)
      modifies this, prio
      ensures var flat := FlatStep(old(Frames()), old(sp.mem), old(sz), op);
        (sp.mem, sz, o) == flat || o == flat.2 == Panic
      ensures o != Panic ==> Ready() && Frames() == old(Frames())
    {
      hide Inv, Pages, Process.HeapFor, Grown;
      match op
      case Grow(n) =>
        o := Growproc(n);
      case Load(va, off) =>
        var alive, b := LoadByte(va, off);
        o := if alive then Value(b) else Killed;
      case Store(va, off, b) =>
        var alive := StoreByte(va, off, b);
        assert alive ==> sp.mem.Keys == old(sp.mem).Keys;
        o := if alive then Done else Killed;
    }

    /** Paging is transparent: whatever the number of frames, every run of allocations, loads
        and stores has the outcomes it has on a memory that never pages. */
    method Run(ops: seq<Op>) returns (outs: seq<Out>)
      requires Ready() && forall i :: 0 <= i < |ops| ==> ops[i].Grow? || ops[i].off < PGSIZE
      modifies this, prio
      ensures outs == FlatRun(old(Frames()), old(sp.mem), old(sz), ops)
      ensures Panic !in outs ==> Ready()
    {
      hide Ready, FlatStep;
      outs := [];
      if ops != [] {
        var o := Step(ops[0]);
        if Ends(o) {
          return [o];
        }
        var rest := Run(ops[1..]);
        return [o] + rest;
      }
    }

    /** deallocuvm of one page. A present page goes with its slot, its heap entry and its
        frame, and nothing else changes. The entry of a paged-out page still names the frame
        the page had last, and that frame is freed too if it is in use by now: exactly then
        (ok is false) a frame that somebody maps goes to the allocator. */
    method DeallocPage(va: int) returns (ok: bool)
      requires Valid() && va in x.pte
      modifies this`x, this`sp, this`prioSize, this`pr, prio
      ensures ok <==> old(x).pte[va].p || old(x).pte[va].frame in old(x).free
      ensures ok ==> Valid() && sp.mem == old(sp.mem) - {va} && |x.free| + x.inMem == old(|x.free| + x.inMem)
      ensures !ok ==> FreedInUse(old(x), x, va)
    {
      if x.pte[va].p {
        DeallocPresent(va);
        return true;
      }
      ok := DeallocAway(va);
    }

    /** deallocuvm of one paged-out page. */
    method DeallocAway(va: int) returns (ok: bool)
      requires Valid() && va in x.pte && !x.pte[va].p
      modifies this`x, this`sp
      ensures ok <==> old(x).pte[va].frame in old(x).free
      ensures ok ==> Valid() && sp.mem == old(sp.mem) - {va} && |x.free| + x.inMem == old(|x.free| + x.inMem)
      ensures !ok ==> FreedInUse(old(x), x, va)
    {
      hide RamOk, SwapOk, PteOk, FramesOk, FileOk, Process.HeapFor;
      SwappedOut(x, sp, va);
      var k := GetPagePgdirIndex(true, va);
      EraseOk(x, sp, k);
      ghost var b := OtherMapper(x, sp, va);
      var f := x.pte[va].frame;
      ok := f in x.free;
      if !ok {
        x := x.(frames := x.frames - {f}, free := x.free + {f});
      }
      x := x.(inSwap := x.inSwap - 1, swap := x.swap[k := Cleared(x.swap[k])], pte := x.pte - {va});
      sp := SpecVacate(old(x), sp, k);
      assert f in old(x).frames ==> b in x.pte && x.pte[b].p && x.pte[b].frame == f;
    }

    /** Frames that other processes take from kalloc. */
    method TakeFrames(taken: set<Frame>)
      requires Valid() && taken <= x.free
      modifies this`x
      ensures Valid() && x == old(x).(free := old(x).free - taken)
    {
      hide RamOk, SwapOk, PteOk, FileOk, Process.HeapFor;
      x := x.(free := x.free - taken);
    }

    method DeallocPresent(va: int)
      requires Valid() && va in x.pte && x.pte[va].p
      modifies this`x, this`sp, this`prioSize, this`pr, prio
      ensures Valid() && sp.mem == old(sp.mem) - {va} && |x.free| + x.inMem == old(|x.free| + x.inMem)
      ensures sp.swapAt == old(sp.swapAt) && x.inMem == old(x.inMem) - 1 && x.swap == old(x.swap)
      ensures x.pte == old(x.pte) - {va}
    {
      hide RamOk, SwapOk, PteOk, FramesOk, FileOk, Process.HeapFor;
      SwappedOut(x, sp, va);
      RamSlot(x, sp, va);
      var k := GetPagePgdirIndex(false, va);
      RamPage(x, sp, k);
      RemoveOk(x, sp, k);
      ghost var x1, sp1 := Remove(x, k), SpecRemove(x, sp, k);
      var f := x.pte[va].frame;
      x := x.(frames := x.frames - {f}, free := x.free + {f});
      if x.ram[k].occupied {
        x := x.(inMem := x.inMem - 1);
        OccUpdate(x.ram, k, Cleared(x.ram[k]));
        HeapRemove(k, Occ(x.ram));
        x := x.(ram := x.ram[k := Cleared(x.ram[k])]);
      }
      x := x.(pte := x.pte - {va});
      sp := sp1;
      // The page may have a stale swap entry, but an occupied one, which would be
      // cleared, it cannot have.
      var j := GetPagePgdirIndex(true, va);
      assert j == -1 || !x.swap[j].occupied;
    }
  }

  lemma {:induction false} GrownSize(mem: map<int, Page>, lo: int, hi: int)
    requires lo <= hi && forall a :: a in mem ==> a < lo
    ensures |Grown(mem, lo, hi).Keys| == |mem.Keys| + hi - lo
    decreases hi - lo
  {
    if lo >= hi {
    } else {
      GrownSize(mem, lo, hi - 1);
      GrownKeys(mem, lo, hi - 1, hi - 1);
      NewKey(Grown(mem, lo, hi - 1), hi - 1, Volume.Zeros(PGSIZE));
    }
  }

  predicate Names(s: seq<Pmd>, i: int, va: int) {
    0 <= i < |s| && s[i].occupied && s[i].va == va
  }

  /** Every page of the page table has exactly one occupied slot, a RAM slot if it is
      present and a swap slot if it is not; and only such pages have one. */
  lemma OneHome(x: Proc, sp: Spec, va: int)
    requires Inv(x, sp)
    ensures (va in x.pte && x.pte[va].p) <==> exists i :: Names(x.ram, i, va)
    ensures (va in x.pte && !x.pte[va].p) <==> exists i :: Names(x.swap, i, va)
    ensures forall i, j :: Names(x.ram, i, va) && Names(x.ram, j, va) ==> i == j
    ensures forall i, j :: Names(x.swap, i, va) && Names(x.swap, j, va) ==> i == j
  {
    if va in sp.ramAt {
      assert Names(x.ram, sp.ramAt[va], va);
    }
    if va in sp.swapAt {
      assert Names(x.swap, sp.swapAt[va], va);
    }
  }

  lemma SameKeys(x: Proc, sp: Spec)
    requires Inv(x, sp)
    ensures forall a :: a in x.pte <==> a in sp.mem
    ensures forall a :: a in sp.mem ==> a >= 0
  {
  }

  lemma RamSlot(x: Proc, sp: Spec, va: int)
    requires Inv(x, sp) && va in x.pte && x.pte[va].p
    ensures va in sp.ramAt && va !in sp.swapAt && va in sp.mem
    ensures 0 <= sp.ramAt[va] < |x.ram| && x.ram[sp.ramAt[va]].occupied && x.ram[sp.ramAt[va]].va == va
  {
  }

  lemma StoreOk(x: Proc, sp: Spec, va: int, off: nat, b: byte)
    requires Inv(x, sp) && va in x.pte && x.pte[va].p && off < PGSIZE
    ensures x.pte[va].frame in x.frames && va in sp.mem && |sp.mem[va]| == PGSIZE
    ensures x.frames[x.pte[va].frame] == sp.mem[va]
    ensures var f := x.pte[va].frame;
      Inv(x.(frames := x.frames[f := x.frames[f][off := b]]), sp.(mem := sp.mem[va := sp.mem[va][off := b]]))
  {
    var f := x.pte[va].frame;
    RamSlot(x, sp, va);
    RamPage(x, sp, sp.ramAt[va]);
    var page := sp.mem[va][off := b];
    assert FramesOk(x.frames[f := page], x.free, x.pte, sp.own, sp.mem[va := page]);
    assert PteOk(x.pte, sp.mem[va := page], sp.ramAt, sp.swapAt);
    hide RamOk, SwapOk, PteOk, FramesOk, FileOk;
    InstallFile(x.file, sp.used, sp.swapAt, sp.mem, va, page);
  }

  /** A page that is not present has an occupied swap slot that names it. */
  lemma SwappedOut(x: Proc, sp: Spec, va: int)
    requires Inv(x, sp)
    ensures va in x.pte && !x.pte[va].p ==> va in sp.swapAt
    ensures va in sp.swapAt ==>
      && 0 <= sp.swapAt[va] < |x.swap| && va != -1
      && x.swap[sp.swapAt[va]].occupied && x.swap[sp.swapAt[va]].va == va
    ensures -1 !in x.pte
  {
  }

  // ---------------------------------------------------------------- two runs that go wrong

  lemma NoneOccupied(s: seq<Pmd>)
    ensures (forall k :: 0 <= k < |s| ==> !s[k].occupied) ==> Occ(s) == {}
  {
  }

  lemma SomeOccupied(x: Proc, sp: Spec)
    requires Inv(x, sp) && x.inSwap > 0
    ensures exists k :: 0 <= k < |x.swap| && x.swap[k].occupied
  {
    hide Occ;
    NoneOccupied(x.swap);
  }

  lemma SixteenPages()
    ensures Pages(0) == 0 && Pages(MAX_PSYC_PAGES * PGSIZE) == 16
  {
  }

  /** A process with sixteen frames grows to seventeen pages: its frames are all in use, the
      last page is present and some other one, of which va is the number, is paged out. */
  method Seventeen(frames: set<Frame>) returns (p: Process, va: int)
    requires |frames| == MAX_PSYC_PAGES
    ensures fresh(p) && fresh(p.prio) && p.Valid() && p.x.free == {} && p.x.inMem == MAX_PSYC_PAGES
    ensures 16 in p.x.pte && p.x.pte[16].p && va in p.x.pte && !p.x.pte[va].p
  {
    hide Inv, Process.HeapFor, Pages, Grown, Occ;
    SixteenPages();
    p := new Process(0, frames);
    CountersSum(p.x, p.sp);
    Counters(p.x, p.sp);
    var r := p.AllocPages(0, MAX_PSYC_PAGES * PGSIZE);
    SameKeys(p.x, p.sp);
    GrownKeys(map[], 0, 16, 16);
    GrownSize(map[], 0, 16);
    assert p.x.free == {};
    r := p.AllocPage(16);
    CountersSum(p.x, p.sp);
    SomeOccupied(p.x, p.sp);
    var k := p.GetPageIndexDefault(true, true, -1);
    SwapPage(p.x, p.sp, k);
    va := p.x.swap[k].va;
  }

  /** The last page is given back, its frame goes to another process, and the fault on the
      paged-out page loses it. */
  method LostPage(frames: set<Frame>) returns (p: Process, va: int)
    requires |frames| == MAX_PSYC_PAGES
    ensures Lost(p.x, va)
  {
    hide Inv, Process.HeapFor, Lost;
    p, va := Seventeen(frames);
    p.DeallocPresent(16);
    p.TakeFrames(p.x.free);
    var ok := p.OnPageFaultPG(va);
  }

  /** Giving back the paged-out page instead frees a frame that was not free. */
  method FreedFrame(frames: set<Frame>) returns (p: Process, ghost before: Proc, va: int)
    requires |frames| == MAX_PSYC_PAGES
    ensures va in before.pte && FreedInUse(before, p.x, va)
  {
    hide Inv, Process.HeapFor, FreedInUse;
    p, va := Seventeen(frames);
    before := p.x;
    var ok := p.DeallocPage(va);
  }
}
