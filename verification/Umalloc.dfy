/** The user-level allocator of umalloc.c: an address-ordered circular list of free
    blocks, threaded through block headers. Addresses are byte addresses, block sizes are
    in header units of 8 bytes, and the static header `base` lies below the heap. */
module Umalloc {
  const HDR := 8
  const UINT := 0x1_0000_0000
  const KERNBASE := 0x8000_0000

  // ---------------------------------------------------------------- the ring

  function Succ(ring: seq<int>, i: int): int {
    if i + 1 < |ring| then i + 1 else 0
  }

  predicate Ascending(ring: seq<int>) {
    forall i, j :: 0 <= i < j < |ring| ==> ring[i] < ring[j]
  }

  predicate Link(ptr: map<int, int>, ring: seq<int>, i: int) {
    0 <= i < |ring| ==> ring[i] in ptr && ptr[ring[i]] == ring[Succ(ring, i)]
  }

  predicate Links(ptr: map<int, int>, ring: seq<int>) {
    forall i :: 0 <= i < |ring| ==> Link(ptr, ring, i)
  }

  /** ring lists the free list from its lowest header up; each link leads to the next one
      and the last back to the first. */
  predicate RingOk(ptr: map<int, int>, ring: seq<int>) {
    |ring| > 0 && Ascending(ring) && Links(ptr, ring)
  }

  function Inserted(ring: seq<int>, t: nat, b: int): (r: seq<int>)
    requires t < |ring|
    ensures |r| == |ring| + 1
    ensures forall i :: 0 <= i < |r| ==> r[i] == if i <= t then ring[i] else if i == t + 1 then b else ring[i - 1]
  {
    ring[..t + 1] + [b] + ring[t + 1..]
  }

  function Removed(ring: seq<int>, i: nat): (r: seq<int>)
    requires i < |ring|
    ensures |r| == |ring| - 1
    ensures forall j :: 0 <= j < |r| ==> r[j] == if j < i then ring[j] else ring[j + 1]
  {
    ring[..i] + ring[i + 1..]
  }

  lemma InsertAscending(ring: seq<int>, t: nat, b: int)
    requires Ascending(ring) && t < |ring| && ring[t] < b && (t + 1 < |ring| ==> b < ring[t + 1])
    ensures Ascending(Inserted(ring, t, b))
  {
    var r := Inserted(ring, t, b);
    forall i, j | 0 <= i < j < |r| ensures r[i] < r[j] {
      if i == t + 1 {
        assert ring[t + 1] <= ring[j - 1];
      } else if j == t + 1 {
        assert ring[i] <= ring[t];
      }
    }
  }

  lemma InsertLinks(ptr: map<int, int>, ring: seq<int>, t: nat, b: int)
    requires RingOk(ptr, ring) && t < |ring| && b !in ring
    ensures ring[t] in ptr && Links(ptr[b := ptr[ring[t]]][ring[t] := b], Inserted(ring, t, b))
  {
    assert Link(ptr, ring, t);
    var r, q := Inserted(ring, t, b), ptr[b := ptr[ring[t]]][ring[t] := b];
    forall i | 0 <= i < |r| ensures Link(q, r, i) {
      if i < t {
        assert Link(ptr, ring, i) && ring[i] < ring[t];
      } else if i > t + 1 {
        assert Link(ptr, ring, i - 1) && ring[t] < ring[i - 1];
      }
    }
  }

  lemma RemoveAscending(ring: seq<int>, i: nat)
    requires Ascending(ring) && i < |ring|
    ensures Ascending(Removed(ring, i))
  {
  }

  lemma RemoveLinks(ptr: map<int, int>, ring: seq<int>, i: nat)
    requires RingOk(ptr, ring) && 0 < i < |ring|
    ensures ring[i] in ptr && Links(ptr[ring[i - 1] := ptr[ring[i]]], Removed(ring, i))
  {
    assert Link(ptr, ring, i);
    var r, q := Removed(ring, i), ptr[ring[i - 1] := ptr[ring[i]]];
    forall j | 0 <= j < |r| ensures Link(q, r, j) {
      if j < i - 1 {
        assert Link(ptr, ring, j) && ring[j] < ring[i - 1];
      } else if j >= i {
        assert Link(ptr, ring, j + 1) && ring[i - 1] < ring[j + 1];
      }
    }
  }

  // ---------------------------------------------------------------- the blocks

  /** The blocks, free and live, do not overlap. */
  predicate Apart(units: map<int, int>, blocks: set<int>) {
    && (forall a :: a in blocks ==> a in units && units[a] >= 1)
    && (forall a, b :: a in blocks && b in blocks && a < b ==> a + HDR * units[a] <= b)
  }

  /** Byte y belongs to the block at a. */
  predicate In(units: map<int, int>, blocks: set<int>, a: int, y: int) {
    a in blocks && a in units && a <= y < a + HDR * units[a]
  }

  ghost predicate Covered(units: map<int, int>, blocks: set<int>, y: int) {
    exists a :: In(units, blocks, a, y)
  }

  /** No byte belongs to two blocks. */
  lemma OneBlock(units: map<int, int>, blocks: set<int>, a: int, b: int, y: int)
    requires Apart(units, blocks) && In(units, blocks, a, y) && In(units, blocks, b, y)
    ensures a == b
  {
  }

  lemma MergeApart(units: map<int, int>, blocks: set<int>, a: int, b: int)
    requires Apart(units, blocks) && a in blocks && b in blocks && a + HDR * units[a] == b
    ensures Apart(units[a := units[a] + units[b]], blocks - {b})
  {
  }

  lemma MergeCovers(units: map<int, int>, blocks: set<int>, a: int, b: int, y: int)
    requires Apart(units, blocks) && a in blocks && b in blocks && a + HDR * units[a] == b
    ensures Covered(units[a := units[a] + units[b]], blocks - {b}, y) == Covered(units, blocks, y)
  {
    var u, k := units[a := units[a] + units[b]], blocks - {b};
    if c :| In(units, blocks, c, y) {
      assert In(u, k, if c == b then a else c, y);
    }
    if c :| In(u, k, c, y) {
      assert In(units, blocks, if c == a && y >= b then b else c, y);
    }
  }

  lemma SplitApart(units: map<int, int>, blocks: set<int>, a: int, n: nat)
    requires Apart(units, blocks) && a in blocks && 1 <= n < units[a]
    ensures var b := a + HDR * (units[a] - n);
      b !in blocks && Apart(units[a := units[a] - n][b := n], blocks + {b})
  {
  }

  lemma SplitCovers(units: map<int, int>, blocks: set<int>, a: int, n: nat, y: int)
    requires Apart(units, blocks) && a in blocks && 1 <= n < units[a]
    ensures var b := a + HDR * (units[a] - n);
      Covered(units[a := units[a] - n][b := n], blocks + {b}, y) == Covered(units, blocks, y)
  {
    var b := a + HDR * (units[a] - n);
    var u, k := units[a := units[a] - n][b := n], blocks + {b};
    SplitApart(units, blocks, a, n);
    if c :| In(units, blocks, c, y) {
      assert In(u, k, if c == a && y >= b then b else c, y);
    }
    if c :| In(u, k, c, y) {
      assert In(units, blocks, if c == b then a else c, y);
    }
  }

  // ---------------------------------------------------------------- the whole heap

  /** The header fields: s.ptr and s.size. */
  datatype Headers = Headers(ptr: map<int, int>, units: map<int, int>)

  /** Every block lies between the static header and the break; the ring starts at the
      static header, which is empty, and otherwise holds blocks. */
  predicate Shape(h: Headers, base: int, ring: seq<int>, blocks: set<int>, brk: int) {
    && RingOk(h.ptr, ring) && ring[0] == base && base in h.units && h.units[base] == 0
    && Apart(h.units, blocks)
    && (forall a :: a in blocks ==> base + HDR <= a && a + HDR * h.units[a] <= brk)
    && (forall i :: 1 <= i < |ring| ==> ring[i] in blocks)
  }

  /** The free blocks at ring positions i and i + 1 do not touch. */
  predicate Gap(h: Headers, ring: seq<int>, i: int) {
    1 <= i && i + 1 < |ring| && ring[i] in h.units ==> ring[i] + HDR * h.units[ring[i]] != ring[i + 1]
  }

  predicate NoTouch(h: Headers, ring: seq<int>) {
    forall i :: 1 <= i < |ring| ==> Gap(h, ring, i)
  }

  predicate Live(ring: seq<int>, blocks: set<int>, a: int) {
    a in blocks && a !in ring
  }

  /** Linking a live block b in after ring position t. */
  function Linked(h: Headers, ring: seq<int>, t: nat, b: int): Headers
    requires t < |ring| && ring[t] in h.ptr
  {
    h.(ptr := h.ptr[b := h.ptr[ring[t]]][ring[t] := b])
  }

  lemma LinkShape(h: Headers, base: int, ring: seq<int>, blocks: set<int>, brk: int, t: nat, b: int)
    requires Shape(h, base, ring, blocks, brk) && Live(ring, blocks, b) && Place(ring, t, b)
    ensures ring[t] in h.ptr && Shape(Linked(h, ring, t, b), base, Inserted(ring, t, b), blocks, brk)
  {
    hide Links, Apart;
    InsertLinks(h.ptr, ring, t, b);
    InsertAscending(ring, t, b);
  }

  lemma LinkGap(h: Headers, ring: seq<int>, t: nat, b: int, i: nat)
    requires NoTouch(h, ring) && t < |ring| && ring[t] in h.ptr
    requires 1 <= i < |ring| + 1 && i != t && i != t + 1
    ensures Gap(Linked(h, ring, t, b), Inserted(ring, t, b), i)
  {
    assert Gap(h, ring, if i < t then i else i - 1);
  }

  lemma LinkOk(h: Headers, base: int, ring: seq<int>, blocks: set<int>, brk: int, t: nat, b: int)
    requires Shape(h, base, ring, blocks, brk) && NoTouch(h, ring) && Live(ring, blocks, b) && Place(ring, t, b)
    ensures ring[t] in h.ptr && Shape(Linked(h, ring, t, b), base, Inserted(ring, t, b), blocks, brk)
    ensures forall i :: 1 <= i < |ring| + 1 && i != t && i != t + 1 ==>
      Gap(Linked(h, ring, t, b), Inserted(ring, t, b), i)
    ensures forall a :: Live(Inserted(ring, t, b), blocks, a) <==> Live(ring, blocks, a) && a != b
  {
    hide Shape, NoTouch, Gap;
    LinkShape(h, base, ring, blocks, brk, t, b);
    forall i | 1 <= i < |ring| + 1 && i != t && i != t + 1
      ensures Gap(Linked(h, ring, t, b), Inserted(ring, t, b), i)
    {
      LinkGap(h, ring, t, b, i);
    }
    InsertedMembers(ring, t, b);
  }

  lemma InsertedMembers(ring: seq<int>, t: nat, b: int)
    requires t < |ring|
    ensures forall a :: a in Inserted(ring, t, b) <==> a in ring || a == b
  {
    var r := Inserted(ring, t, b);
    forall a | a in ring || a == b ensures a in r {
      if a == b {
        assert r[t + 1] == b;
      } else {
        var i :| 0 <= i < |ring| && ring[i] == a;
        assert r[if i <= t then i else i + 1] == a;
      }
    }
  }

  lemma RemovedMembers(ring: seq<int>, i: nat)
    requires Ascending(ring) && i < |ring|
    ensures forall a :: a in Removed(ring, i) <==> a in ring && a != ring[i]
  {
    var r := Removed(ring, i);
    forall a | a in ring && a != ring[i] ensures a in r {
      var j :| 0 <= j < |ring| && ring[j] == a;
      assert r[if j < i then j else j - 1] == a;
    }
  }

  /** Joining the free blocks at ring positions i and i + 1. */
  function Joined(h: Headers, ring: seq<int>, i: nat): Headers
    requires i + 1 < |ring| && ring[i] in h.units && ring[i + 1] in h.units && ring[i + 1] in h.ptr
  {
    Headers(h.ptr[ring[i] := h.ptr[ring[i + 1]]], h.units[ring[i] := h.units[ring[i]] + h.units[ring[i + 1]]])
  }

  predicate Joinable(h: Headers, base: int, ring: seq<int>, blocks: set<int>, brk: int, i: int) {
    Shape(h, base, ring, blocks, brk) && 1 <= i && i + 1 < |ring| && !Gap(h, ring, i)
  }

  lemma JoinOk(h: Headers, base: int, ring: seq<int>, blocks: set<int>, brk: int, i: nat)
    requires Joinable(h, base, ring, blocks, brk, i)
    ensures ring[i] in h.units && ring[i + 1] in h.units && ring[i + 1] in h.ptr
    ensures Shape(Joined(h, ring, i), base, Removed(ring, i + 1), blocks - {ring[i + 1]}, brk)
  {
    MergeApart(h.units, blocks, ring[i], ring[i + 1]);
    RemoveLinks(h.ptr, ring, i + 1);
    RemoveAscending(ring, i + 1);
    RemovedMembers(ring, i + 1);
  }

  lemma JoinGaps(h: Headers, base: int, ring: seq<int>, blocks: set<int>, brk: int, i: nat, j: nat)
    requires Joinable(h, base, ring, blocks, brk, i)
    requires ring[i] in h.units && ring[i + 1] in h.units && ring[i + 1] in h.ptr
    ensures 1 <= j < |ring| - 1 ==>
      Gap(Joined(h, ring, i), Removed(ring, i + 1), j) == Gap(h, ring, if j < i then j else j + 1)
  {
    if 1 <= j < |ring| - 1 {
      var r := Removed(ring, i + 1);
      assert r[j] == if j <= i then ring[j] else ring[j + 1];
    }
  }

  lemma JoinLive(h: Headers, base: int, ring: seq<int>, blocks: set<int>, brk: int, i: nat)
    requires Joinable(h, base, ring, blocks, brk, i)
    ensures forall a :: Live(Removed(ring, i + 1), blocks - {ring[i + 1]}, a) <==> Live(ring, blocks, a)
  {
    RemovedMembers(ring, i + 1);
  }

  /** Headers, ring and blocks together. */
  datatype State = State(h: Headers, ring: seq<int>, blocks: set<int>)

  predicate Weak(s: State, base: int, brk: int) {
    Shape(s.h, base, s.ring, s.blocks, brk)
  }

  function Join(s: State, i: nat): State
    requires i + 1 < |s.ring| && s.ring[i] in s.h.units && s.ring[i + 1] in s.h.units && s.ring[i + 1] in s.h.ptr
  {
    State(Joined(s.h, s.ring, i), Removed(s.ring, i + 1), s.blocks - {s.ring[i + 1]})
  }

  /** Joins positions i and i + 1 when they touch. */
  ghost function Coalesce(s: State, i: nat): State {
    if 1 <= i && i + 1 < |s.ring| && s.ring[i] in s.h.units && s.ring[i + 1] in s.h.units && s.ring[i + 1] in s.h.ptr
       && !Gap(s.h, s.ring, i)
    then Join(s, i) else s
  }

  /** Same live blocks with the same sizes, same bytes covered. */
  ghost predicate SameLive(s: State, s': State) {
    && (forall a :: Live(s.ring, s.blocks, a) <==> Live(s'.ring, s'.blocks, a))
    && (forall a :: Live(s.ring, s.blocks, a) && a in s.h.units ==> a in s'.h.units && s'.h.units[a] == s.h.units[a])
    && (forall y :: Covered(s.h.units, s.blocks, y) == Covered(s'.h.units, s'.blocks, y))
  }

  lemma CoalesceOk(s: State, base: int, brk: int, i: nat)
    requires Weak(s, base, brk)
    ensures Weak(Coalesce(s, i), base, brk) && SameLive(s, Coalesce(s, i))
    ensures |Coalesce(s, i).ring| >= i + 1 || Coalesce(s, i) == s
  {
    if Joinable(s.h, base, s.ring, s.blocks, brk, i) {
      JoinOk(s.h, base, s.ring, s.blocks, brk, i);
      JoinLive(s.h, base, s.ring, s.blocks, brk, i);
      forall y ensures Covered(s.h.units, s.blocks, y) == Covered(Join(s, i).h.units, Join(s, i).blocks, y) {
        MergeCovers(s.h.units, s.blocks, s.ring[i], s.ring[i + 1], y);
      }
    }
  }

  /** Positions other than k that had a gap still have one, and position i now has one. */
  lemma CoalesceGaps(s: State, base: int, brk: int, i: nat, k: nat)
    requires Weak(s, base, brk) && 1 <= i && k < i
    requires forall j :: 1 <= j < |s.ring| && j != i && j != k ==> Gap(s.h, s.ring, j)
    ensures var c := Coalesce(s, i); forall j :: 1 <= j < |c.ring| && j != k ==> Gap(c.h, c.ring, j)
  {
    if Joinable(s.h, base, s.ring, s.blocks, brk, i) {
      JoinOk(s.h, base, s.ring, s.blocks, brk, i);
      var c := Join(s, i);
      forall j | 1 <= j < |c.ring| && j != k ensures Gap(c.h, c.ring, j) {
        JoinGaps(s.h, base, s.ring, s.blocks, brk, i, j);
      }
    }
  }

  /** Ring position t is the one after which b belongs. */
  predicate Place(ring: seq<int>, t: nat, b: int) {
    t < |ring| && ring[t] < b && (t + 1 < |ring| ==> b < ring[t + 1])
  }

  lemma FindPlace(ring: seq<int>, b: int) returns (t: nat)
    requires |ring| > 0 && Ascending(ring) && ring[0] < b && b !in ring
    ensures Place(ring, t, b)
    ensures forall j :: 0 <= j < |ring| && Place(ring, j, b) ==> j == t
  {
    t := 0;
    while t + 1 < |ring| && ring[t + 1] < b
      invariant t < |ring| && ring[t] < b
    {
      t := t + 1;
    }
    assert t + 1 < |ring| ==> ring[t + 1] in ring;
  }

  function LinkedIn(s: State, t: nat, b: int): State
    requires t < |s.ring| && s.ring[t] in s.h.ptr
  {
    State(Linked(s.h, s.ring, t, b), Inserted(s.ring, t, b), s.blocks)
  }

  ghost function Freed(s: State, t: nat, b: int): State
    requires t < |s.ring| && s.ring[t] in s.h.ptr
  {
    Coalesce(Coalesce(LinkedIn(s, t, b), t + 1), t)
  }

  /** free: b stops being live, everything else stays live with its size, the same bytes
      are covered, and no two free blocks touch. */
  lemma FreedOk(s: State, base: int, brk: int, t: nat, b: int)
    requires Weak(s, base, brk) && NoTouch(s.h, s.ring) && Live(s.ring, s.blocks, b) && Place(s.ring, t, b)
    ensures s.ring[t] in s.h.ptr
    ensures var f := Freed(s, t, b);
      && Weak(f, base, brk) && NoTouch(f.h, f.ring)
      && (forall a :: Live(f.ring, f.blocks, a) <==> Live(s.ring, s.blocks, a) && a != b)
      && (forall a :: Live(f.ring, f.blocks, a) ==> a in s.h.units && a in f.h.units && f.h.units[a] == s.h.units[a])
      && (forall y :: Covered(s.h.units, s.blocks, y) == Covered(f.h.units, f.blocks, y))
  {
    LinkOk(s.h, base, s.ring, s.blocks, brk, t, b);
    var l := LinkedIn(s, t, b);
    CoalesceOk(l, base, brk, t + 1);
    CoalesceGaps(l, base, brk, t + 1, t);
    var c := Coalesce(l, t + 1);
    CoalesceOk(c, base, brk, t);
    if t > 0 {
      CoalesceGaps(c, base, brk, t, 0);
    }
  }

  /** What free's first conditional does: join bp with the block above, or just link. */
  function Above(h: Headers, p: int, bp: int): Headers
    requires p in h.ptr && bp in h.units && h.ptr[p] in h.units && h.ptr[p] in h.ptr
  {
    var q := h.ptr[p];
    if bp + HDR * h.units[bp] == q
    then Headers(h.ptr[bp := h.ptr[q]], h.units[bp := h.units[bp] + h.units[q]])
    else h.(ptr := h.ptr[bp := q])
  }

  /** And its second: join with the block below, or just link. */
  function Lower(h: Headers, p: int, bp: int): Headers
    requires p in h.units && bp in h.units && bp in h.ptr
  {
    if p + HDR * h.units[p] == bp
    then Headers(h.ptr[p := h.ptr[bp]], h.units[p := h.units[p] + h.units[bp]])
    else h.(ptr := h.ptr[p := bp])
  }

  predicate FreeReady(s: State, base: int, brk: int, t: nat, b: int) {
    Weak(s, base, brk) && NoTouch(s.h, s.ring) && Live(s.ring, s.blocks, b) && Place(s.ring, t, b)
  }

  lemma HeadersThere(s: State, base: int, brk: int, t: nat, b: int)
    requires FreeReady(s, base, brk, t, b)
    ensures var p := s.ring[t];
      p in s.h.ptr && p in s.h.units && b in s.h.units && s.h.ptr[p] in s.h.units && s.h.ptr[p] in s.h.ptr
    ensures s.h.ptr[s.ring[t]] == s.ring[Succ(s.ring, t)]
  {
    assert Link(s.h.ptr, s.ring, t) && Link(s.h.ptr, s.ring, Succ(s.ring, t));
  }

  /** What free's first conditional and the link that follows it make of the headers. */
  predicate LinkedAbove(s: State, t: nat, b: int, c: State)
    requires t < |s.ring|
  {
    var p := s.ring[t];
    && p in s.h.ptr && p in s.h.units && b in s.h.units && s.h.ptr[p] in s.h.units && s.h.ptr[p] in s.h.ptr
    && var g := Above(s.h, p, b);
    && c.h == g.(ptr := g.ptr[p := b])
    && |c.ring| > t + 1 && c.ring[t] == p && c.ring[t + 1] == b
    && p in c.h.units && c.h.units[p] == s.h.units[p] && b in c.h.units && c.h.units[b] >= s.h.units[b]
  }

  lemma AboveMid(s: State, t: nat, b: int)
    requires t + 1 < |s.ring| && s.ring[t] < b < s.ring[t + 1]
    requires s.ring[t] in s.h.ptr && s.h.ptr[s.ring[t]] == s.ring[t + 1] && s.ring[t + 1] in s.h.ptr
    requires s.ring[t] in s.h.units && b in s.h.units && s.ring[t + 1] in s.h.units && s.h.units[s.ring[t + 1]] >= 0
    ensures LinkedAbove(s, t, b, Coalesce(LinkedIn(s, t, b), t + 1))
  {
    var p, q, l := s.ring[t], s.ring[t + 1], LinkedIn(s, t, b);
    assert l.ring[t] == p && l.ring[t + 1] == b && l.ring[t + 2] == q;
    if b + HDR * s.h.units[b] == q {
      var g := Above(s.h, p, b);
      assert Join(l, t + 1).h.ptr == g.ptr[p := b];
    }
  }

  lemma AboveLast(s: State, base: int, t: nat, b: int)
    requires t + 1 == |s.ring| && s.ring[t] < b && base < b
    requires s.ring[t] in s.h.ptr && s.h.ptr[s.ring[t]] == base && base in s.h.ptr && base in s.h.units
    requires s.ring[t] in s.h.units && b in s.h.units && s.h.units[b] >= 1
    ensures LinkedAbove(s, t, b, Coalesce(LinkedIn(s, t, b), t + 1))
  {
  }

  lemma AboveFacts(s: State, base: int, brk: int, t: nat, b: int)
    requires FreeReady(s, base, brk, t, b)
    ensures |s.ring| > t && s.ring[t] < b && base < b && (t + 1 < |s.ring| ==> b < s.ring[t + 1])
    ensures b in s.h.units && s.h.units[b] >= 1
    ensures t + 1 < |s.ring| ==> s.ring[t + 1] in s.h.units && s.h.units[s.ring[t + 1]] >= 0
    ensures t + 1 == |s.ring| ==> s.ring[Succ(s.ring, t)] == base
  {
  }

  lemma AboveOk(s: State, base: int, brk: int, t: nat, b: int)
    requires FreeReady(s, base, brk, t, b)
    ensures t < |s.ring| && s.ring[t] in s.h.ptr && LinkedAbove(s, t, b, Coalesce(LinkedIn(s, t, b), t + 1))
  {
    hide FreeReady, LinkedAbove, Coalesce;
    AboveFacts(s, base, brk, t, b);
    HeadersThere(s, base, brk, t, b);
    if t + 1 < |s.ring| {
      AboveMid(s, t, b);
    } else {
      AboveLast(s, base, t, b);
    }
  }

  lemma LowerOk(c: State, base: int, brk: int, t: nat, g: Headers)
    requires Weak(c, base, brk) && t + 1 < |c.ring|
    requires c.ring[t + 1] in g.ptr && c.h == g.(ptr := g.ptr[c.ring[t] := c.ring[t + 1]])
    ensures c.ring[t] in g.units && c.ring[t + 1] in g.units
    ensures var d := Coalesce(c, t);
      && d.h == Lower(g, c.ring[t], c.ring[t + 1])
      && |d.ring| > t && d.ring[t] == c.ring[t]
      && ((|d.ring| > t + 1 && d.ring[t + 1] == c.ring[t + 1] && d.h == c.h)
          || d.h.units[c.ring[t]] >= g.units[c.ring[t + 1]])
  {
    assert Link(c.h.ptr, c.ring, t + 1);
    if t == 0 {
      assert c.ring[t] == base;
    }
  }

  /** The code of free does what Freed says, and the freed memory is at or right after
      the header that freep then names. */
  lemma FreeCode(s: State, base: int, brk: int, t: nat, b: int)
    requires FreeReady(s, base, brk, t, b)
    ensures var p := s.ring[t];
      && p in s.h.ptr && p in s.h.units && b in s.h.units && s.h.ptr[p] in s.h.units && s.h.ptr[p] in s.h.ptr
      && var f := Freed(s, t, b);
      && f.h == Lower(Above(s.h, p, b), p, b)
      && |f.ring| > t && f.ring[t] == p
      && exists k ::
           (k == t || k == t + 1) && k < |f.ring| && f.ring[k] in f.h.units && f.h.units[f.ring[k]] >= s.h.units[b]
  {
    hide FreeReady, Weak, Coalesce;
    AboveOk(s, base, brk, t, b);
    LinkedWeak(s, base, brk, t, b);
    LowerOk(Coalesce(LinkedIn(s, t, b), t + 1), base, brk, t, Above(s.h, s.ring[t], b));
  }

  lemma LinkedWeak(s: State, base: int, brk: int, t: nat, b: int)
    requires FreeReady(s, base, brk, t, b)
    ensures t < |s.ring| && s.ring[t] in s.h.ptr
    ensures Weak(Coalesce(LinkedIn(s, t, b), t + 1), base, brk)
  {
    LinkOk(s.h, base, s.ring, s.blocks, brk, t, b);
    hide *;
    CoalesceOk(LinkedIn(s, t, b), base, brk, t + 1);
  }

  // ---------------------------------------------------------------- malloc's steps

  /** nunits as malloc computes it, in 32 bits. */
  function Nunits(nbytes: nat): nat {
    (nbytes + HDR - 1) % UINT / HDR + 1
  }

  /** The argument morecore passes to sbrk: the product wraps, and sbrk takes an int. */
  function SbrkArg(nu: nat): int {
    var u := nu * HDR % UINT;
    if u < KERNBASE then u else u - UINT
  }

  function CoreUnits(nunits: nat): nat {
    if nunits < 4096 then 4096 else nunits
  }

  /** malloc asks sbrk for the memory it goes on to record, and the block is large enough,
      exactly when the request is at most 2^31 - 16 bytes. */
  lemma GoodRequest(nbytes: nat)
    requires nbytes < UINT
    ensures var n := Nunits(nbytes);
      (SbrkArg(CoreUnits(n)) == HDR * CoreUnits(n) && HDR * (n - 1) >= nbytes) <==> nbytes <= KERNBASE - 16
    ensures nbytes <= KERNBASE - 16 ==> HDR * Nunits(nbytes) < nbytes + 2 * HDR
  {
  }

  /** A request for half the address space records 2^28 + 1 units after asking sbrk for a
      negative amount. */
  lemma HugeRequest()
    ensures Nunits(KERNBASE) == 0x1000_0001 && SbrkArg(CoreUnits(Nunits(KERNBASE))) == 8 - KERNBASE
    ensures Nunits(UINT - 1) == 1
  {
  }

  /** sbrk(n) fails: the kernel finds no memory (grant < 0), or the break, which other
      callers of sbrk have moved up by grant, would reach KERNBASE. It never fails to take
      memory back. */
  predicate Refused(brk: int, grant: int, n: int) {
    n > 0 && (grant < 0 || brk + grant + n >= KERNBASE)
  }

  function MovedBreak(brk: int, grant: int): int {
    if grant >= 0 && brk + grant < KERNBASE then brk + grant else brk
  }

  /** sbrk gave nu units, and no more, where the break was by then. */
  ghost predicate Obtained(brk: int, mine: iset<int>, grant: int, nu: int, brk': int, mine': iset<int>) {
    brk' == brk + grant + HDR * nu && mine' == mine + Bytes(brk + grant, brk')
  }

  /** No free block has n units. */
  predicate NoFit(s: State, n: int) {
    forall q :: 0 <= q < |s.ring| ==> Size(s.h, s.ring[q]) < n
  }

  function Size(h: Headers, a: int): int {
    if a in h.units then h.units[a] else 0
  }

  /** Memory is recorded as it was obtained exactly below 2^28 units. */
  lemma ExactCore(nunits: nat)
    requires 1 <= nunits <= UINT / HDR
    ensures SbrkArg(CoreUnits(nunits)) == HDR * CoreUnits(nunits) <==> nunits < KERNBASE / HDR
    ensures nunits >= KERNBASE / HDR ==> SbrkArg(CoreUnits(nunits)) <= 0
  {
  }

  /** An exact fit leaves the ring. */
  function Unlinked(s: State, j: nat): State
    requires 0 < j < |s.ring| && s.ring[j] in s.h.ptr
  {
    State(s.h.(ptr := s.h.ptr[s.ring[j - 1] := s.h.ptr[s.ring[j]]]), Removed(s.ring, j), s.blocks)
  }

  lemma UnlinkOk(s: State, base: int, brk: int, j: nat)
    requires Weak(s, base, brk) && NoTouch(s.h, s.ring) && 0 < j < |s.ring|
    ensures s.ring[j] in s.h.ptr && Weak(Unlinked(s, j), base, brk)
    ensures forall a :: Live(Removed(s.ring, j), s.blocks, a) <==> Live(s.ring, s.blocks, a) || a == s.ring[j]
    ensures !Live(s.ring, s.blocks, s.ring[j])
  {
    RemoveLinks(s.h.ptr, s.ring, j);
    RemoveAscending(s.ring, j);
    RemovedMembers(s.ring, j);
  }

  lemma UnlinkGap(s: State, base: int, brk: int, j: nat, i: nat)
    requires Weak(s, base, brk) && NoTouch(s.h, s.ring) && 0 < j < |s.ring| && s.ring[j] in s.h.ptr
    requires 1 <= i < |s.ring| - 1
    ensures Gap(Unlinked(s, j).h, Removed(s.ring, j), i)
  {
    hide Links;
    assert Gap(s.h, s.ring, if i < j then i else i + 1);
    if i == j - 1 && j + 1 < |s.ring| {
      assert s.ring[i] < s.ring[j] < s.ring[j + 1];
    }
  }

  lemma UnlinkGaps(s: State, base: int, brk: int, j: nat)
    requires Weak(s, base, brk) && NoTouch(s.h, s.ring) && 0 < j < |s.ring| && s.ring[j] in s.h.ptr
    ensures NoTouch(Unlinked(s, j).h, Removed(s.ring, j))
  {
    hide Weak, Gap;
    forall i | 1 <= i < |s.ring| - 1 ensures Gap(Unlinked(s, j).h, Removed(s.ring, j), i) {
      UnlinkGap(s, base, brk, j, i);
    }
  }

  /** A larger block gives up its tail. */
  function Cut(s: State, p: int, n: nat): State
    requires p in s.h.units && n < s.h.units[p]
  {
    var b := p + HDR * (s.h.units[p] - n);
    State(s.h.(units := s.h.units[p := s.h.units[p] - n][b := n]), s.ring, s.blocks + {b})
  }

  lemma CutOk(s: State, base: int, brk: int, j: nat, n: nat)
    requires Weak(s, base, brk) && NoTouch(s.h, s.ring) && 0 < j < |s.ring| && s.ring[j] in s.h.units
    requires 1 <= n < s.h.units[s.ring[j]]
    ensures var p := s.ring[j]; var b := p + HDR * (s.h.units[p] - n); var c := Cut(s, p, n);
      && Weak(c, base, brk) && !Live(s.ring, s.blocks, b)
      && (forall a :: Live(c.ring, c.blocks, a) <==> Live(s.ring, s.blocks, a) || a == b)
      && (forall y :: Covered(s.h.units, s.blocks, y) == Covered(c.h.units, c.blocks, y))
      && (forall a :: Live(s.ring, s.blocks, a) ==> a in s.h.units && a in c.h.units && c.h.units[a] == s.h.units[a])
  {
    var p := s.ring[j];
    SplitApart(s.h.units, s.blocks, p, n);
    var b := p + HDR * (s.h.units[p] - n);
    assert b !in s.ring by {
      assert forall i :: 1 <= i < |s.ring| ==> s.ring[i] in s.blocks;
      assert b > base;
    }
    forall y ensures Covered(s.h.units, s.blocks, y) == Covered(Cut(s, p, n).h.units, Cut(s, p, n).blocks, y) {
      SplitCovers(s.h.units, s.blocks, p, n, y);
    }
  }

  lemma CutGaps(s: State, base: int, brk: int, j: nat, n: nat)
    requires Weak(s, base, brk) && NoTouch(s.h, s.ring) && 0 < j < |s.ring| && s.ring[j] in s.h.units
    requires 1 <= n < s.h.units[s.ring[j]]
    ensures NoTouch(Cut(s, s.ring[j], n).h, s.ring)
  {
    var c := Cut(s, s.ring[j], n);
    SplitApart(s.h.units, s.blocks, s.ring[j], n);
    forall i | 1 <= i < |s.ring| ensures Gap(c.h, s.ring, i) {
      assert Gap(s.h, s.ring, i);
      if i + 1 < |s.ring| {
        assert s.ring[i] < s.ring[i + 1];
      }
    }
  }

  /** New memory above everything else, recorded as one live block. */
  function Extended(s: State, p: int, nu: nat): State {
    s.(h := s.h.(units := s.h.units[p := nu]), blocks := s.blocks + {p})
  }

  lemma HigherBreak(s: State, base: int, brk: int, brk': int)
    requires Weak(s, base, brk) && brk <= brk'
    ensures Weak(s, base, brk')
  {
  }

  lemma ExtendOk(s: State, base: int, brk: int, p: int, nu: nat)
    requires Weak(s, base, brk) && NoTouch(s.h, s.ring) && brk <= p && base + HDR <= brk && nu >= 1
    ensures var e := Extended(s, p, nu);
      && Weak(e, base, p + HDR * nu) && NoTouch(e.h, e.ring) && Live(e.ring, e.blocks, p) && !Live(s.ring, s.blocks, p)
      && (forall a :: Live(e.ring, e.blocks, a) <==> Live(s.ring, s.blocks, a) || a == p)
      && (forall y :: Covered(e.h.units, e.blocks, y) <==> Covered(s.h.units, s.blocks, y) || p <= y < p + HDR * nu)
  {
    var e := Extended(s, p, nu);
    assert p !in s.blocks && p !in s.ring && p != base;
    forall i | 1 <= i < |s.ring| ensures Gap(e.h, e.ring, i) {
      assert Gap(s.h, s.ring, i);
    }
    forall y ensures Covered(e.h.units, e.blocks, y) <==> Covered(s.h.units, s.blocks, y) || p <= y < p + HDR * nu {
      if a :| In(e.h.units, e.blocks, a, y) {
        assert a == p || In(s.h.units, s.blocks, a, y);
      }
      if a :| In(s.h.units, s.blocks, a, y) {
        assert In(e.h.units, e.blocks, a, y);
      }
      if p <= y < p + HDR * nu {
        assert In(e.h.units, e.blocks, p, y);
      }
    }
  }

  lemma SmallRequest(nbytes: nat)
    requires nbytes <= KERNBASE - 16
    ensures Nunits(nbytes) < KERNBASE / HDR && HDR * (Nunits(nbytes) - 1) >= nbytes
  {
  }

  lemma UnitsRange(nbytes: nat)
    ensures 1 <= Nunits(nbytes) <= UINT / HDR
  {
  }

  lemma RingFacts(s: State, base: int, brk: int, j: nat)
    requires Weak(s, base, brk) && 0 < base <= brk && j < |s.ring|
    ensures s.ring[j] in s.h.ptr && s.h.ptr[s.ring[j]] == s.ring[Succ(s.ring, j)]
    ensures s.ring[j] in s.h.units && HDR * s.h.units[s.ring[j]] <= brk
    ensures j == 0 ==> s.h.units[s.ring[j]] == 0
    ensures s.ring[j] >= base
  {
    assert Link(s.h.ptr, s.ring, j);
  }

  // ---------------------------------------------------------------- umalloc.c

  predicate Between(lo: int, y: int, hi: int) {
    lo <= y < hi
  }

  ghost function Bytes(lo: int, hi: int): iset<int> {
    iset y | Between(lo, y, hi)
  }

  /** The live blocks and their sizes, as the program that uses them sees them: unchanged;
      the block at b gained; the block at b lost. */
  ghost predicate Kept(s: State, s': State) {
    && (forall a :: Live(s'.ring, s'.blocks, a) <==> Live(s.ring, s.blocks, a))
    && (forall a :: Live(s.ring, s.blocks, a) ==> Size(s'.h, a) == Size(s.h, a))
  }

  ghost predicate Gained(s: State, s': State, b: int, n: int) {
    && !Live(s.ring, s.blocks, b) && Live(s'.ring, s'.blocks, b) && Size(s'.h, b) == n
    && (forall a :: Live(s'.ring, s'.blocks, a) <==> Live(s.ring, s.blocks, a) || a == b)
    && (forall a :: Live(s.ring, s.blocks, a) ==> Size(s'.h, a) == Size(s.h, a))
  }

  ghost predicate Lost(s: State, s': State, b: int) {
    && (forall a :: Live(s'.ring, s'.blocks, a) <==> Live(s.ring, s.blocks, a) && a != b)
    && (forall a :: Live(s'.ring, s'.blocks, a) ==> Size(s'.h, a) == Size(s.h, a))
  }

  lemma KeptSame(s: State)
    ensures Kept(s, s)
  {
  }

  lemma KeptGained(s: State, s': State, s'': State, b: int, n: int)
    requires Kept(s, s') && Gained(s', s'', b, n)
    ensures Gained(s, s'', b, n)
  {
  }

  lemma KeptAgain(s: State, s': State, s'': State)
    requires Kept(s, s') && Kept(s', s'')
    ensures Kept(s, s'')
  {
  }

  lemma GainedLost(s: State, s': State, s'': State, b: int, n: int)
    requires Gained(s, s', b, n) && Lost(s', s'', b)
    ensures Kept(s, s'')
  {
  }

  /** malloc's outcomes: no memory; a block; or a header that records memory sbrk never
      gave, after which the allocator is unsound. */
  datatype Result = Null | Block(ap: int) | Unowned

  /** A request comes with what the kernel makes of an sbrk during it. */
  datatype Op = Request(nbytes: nat, grant: int) | Release(ap: int)

  /** An allocator at one moment. */
  datatype Heap = Heap(s: State, freep: int, brk: int, mine: iset<int>)

  /** Well formed, and its live blocks are those held, each with room for what was asked. */
  ghost predicate Holds(x: Heap, base: int, held: map<int, nat>) {
    && 0 < base && base + HDR <= x.brk < KERNBASE
    && (forall y :: y in x.mine <==> Covered(x.s.h.units, x.s.blocks, y))
    && (if x.freep == 0 then x.s.blocks == {} && x.s.ring == []
        else Weak(x.s, base, x.brk) && NoTouch(x.s.h, x.s.ring) && x.freep in x.s.ring)
    && (forall a :: Live(x.s.ring, x.s.blocks, a) <==> a + HDR in held)
    && (forall a :: a + HDR in held ==> HDR * (Size(x.s.h, a) - 1) >= held[a + HDR])
  }

  /** When a request cannot be met from the free list and sbrk fails. */
  predicate OutOfMemory(s: State, brk: int, nbytes: nat, grant: int) {
    NoFit(s, Nunits(nbytes)) && Refused(brk, grant, SbrkArg(CoreUnits(Nunits(nbytes))))
  }

  /** The search from position f on finds nothing before position j. */
  predicate Passed(s: State, j: int, f: int, n: int) {
    forall q :: 0 <= q < |s.ring| && Ahead(q, f, |s.ring|) > Ahead(j, f, |s.ring|) ==> Size(s.h, s.ring[q]) < n
  }

  /** The free block at position j is the first after the one freep names with n units. */
  predicate NextFit(s: State, freep: int, n: int, f: int, j: int) {
    && 0 <= f < |s.ring| && s.ring[f] == freep && 0 <= j < |s.ring| && Size(s.h, s.ring[j]) >= n && Passed(s, j, f, n)
  }

  /** The n units at b are the end of the first free block that has them. */
  ghost predicate CutFrom(s: State, freep: int, n: int, b: int) {
    exists f, j :: NextFit(s, freep, n, f, j) && b + HDR * n == s.ring[j] + HDR * Size(s.h, s.ring[j])
  }

  /** What one call makes of the heap: a block gained, the end of the next free block that
      fits or, exactly when none does, of memory from sbrk; a block lost; or nothing but the
      break moved. With the blocks tiling
      the memory obtained and free blocks not touching, this fixes the free blocks too
      (SameFree). */
  ghost predicate Follows(x: Heap, x': Heap, op: Op, out: Result) {
    match op
    case Request(nbytes, grant) =>
      var n := Nunits(nbytes);
      if out.Block?
      then
        && Gained(x.s, x'.s, out.ap - HDR, n)
        && if NoFit(x.s, n)
           then Obtained(x.brk, x.mine, grant, CoreUnits(n), x'.brk, x'.mine) && out.ap - HDR + HDR * n == x'.brk
           else x'.brk == x.brk && x'.mine == x.mine && CutFrom(x.s, x.freep, n, out.ap - HDR)
      else out.Null? && Kept(x.s, x'.s) && x'.brk == MovedBreak(x.brk, grant) && x'.mine == x.mine
    case Release(ap) =>
      if Live(x.s.ring, x.s.blocks, ap - HDR)
      then Lost(x.s, x'.s, ap - HDR) && x'.brk == x.brk && x'.mine == x.mine
      else x' == x
  }

  /** The payloads held after the first n calls, each with what was asked, given what the
      calls returned. */
  function Held(ops: seq<Op>, outs: seq<Result>, n: nat): map<int, nat>
    requires n <= |ops| && n <= |outs|
  {
    if n == 0 then map[] else HeldNext(Held(ops, outs, n - 1), ops[n - 1], outs[n - 1])
  }

  function HeldNext(held: map<int, nat>, op: Op, out: Result): map<int, nat> {
    match op
    case Request(nbytes, _) => if out.Block? then held[out.ap := nbytes] else held
    case Release(ap) => held - {ap}
  }

  /** The request failed exactly when it had to, and otherwise got a block not held. */
  ghost predicate AnsweredAs(x: Heap, held: map<int, nat>, op: Op, out: Result)
    requires op.Request?
  {
    && (out == Null <==> OutOfMemory(x.s, x.brk, op.nbytes, op.grant))
    && (out != Null ==> out.Block? && out.ap !in held)
  }

  /** Call k did what it must, to the heap and in its answer. */
  ghost predicate CallAt(ops: seq<Op>, outs: seq<Result>, past: seq<Heap>, k: nat)
    requires k < |ops| && k < |outs| && k + 1 < |past|
  {
    && Follows(past[k], past[k + 1], ops[k], outs[k])
    && (ops[k].Request? ==> AnsweredAs(past[k], Held(ops, outs, k), ops[k], outs[k]))
  }

  /** The heap at every moment of a run: well formed, with exactly the blocks held, and each
      call did what it must. */
  ghost predicate History(base: int, ops: seq<Op>, outs: seq<Result>, past: seq<Heap>) {
    && |outs| <= |ops| && |past| == |outs| + 1
    && (forall k :: 0 <= k <= |outs| ==> Holds(past[k], base, Held(ops, outs, k)))
    && (forall k :: 0 <= k < |outs| ==> CallAt(ops, outs, past, k))
  }

  lemma HistoryStart(base: int, ops: seq<Op>, x: Heap)
    requires Holds(x, base, map[])
    ensures History(base, ops, [], [x])
  {
    hide Holds;
  }

  lemma HistorySize(base: int, ops: seq<Op>, outs: seq<Result>, past: seq<Heap>)
    requires History(base, ops, outs, past)
    ensures |past| == |outs| + 1
  {
  }

  lemma HistoryNext(base: int, ops: seq<Op>, outs: seq<Result>, past: seq<Heap>, out: Result, x: Heap)
    requires History(base, ops, outs, past) && |outs| < |ops|
    requires var k := |outs|;
      && Holds(x, base, HeldNext(Held(ops, outs, k), ops[k], out)) && Follows(past[k], x, ops[k], out)
      && (ops[k].Request? ==> AnsweredAs(past[k], Held(ops, outs, k), ops[k], out))
    ensures History(base, ops, outs + [out], past + [x])
    ensures Held(ops, outs + [out], |outs| + 1) == HeldNext(Held(ops, outs, |outs|), ops[|outs|], out)
  {
    hide Holds, Follows, AnsweredAs, HeldNext;
    HeldPrefix(ops, outs, out);
    var outs', past' := outs + [out], past + [x];
    forall k | 0 <= k < |outs'| ensures CallAt(ops, outs', past', k) {
      if k < |outs| {
        assert CallAt(ops, outs, past, k);
      }
    }
  }

  lemma {:induction false} HeldSame(ops: seq<Op>, outs: seq<Result>, out: Result, k: nat)
    requires k <= |ops| && k <= |outs|
    ensures Held(ops, outs + [out], k) == Held(ops, outs, k)
  {
    if k == 0 {
    } else {
      HeldSame(ops, outs, out, k - 1);
    }
  }

  lemma HeldPrefix(ops: seq<Op>, outs: seq<Result>, out: Result)
    requires |outs| <= |ops|
    ensures forall k :: 0 <= k <= |outs| ==> Held(ops, outs + [out], k) == Held(ops, outs, k)
  {
    forall k | 0 <= k <= |outs| ensures Held(ops, outs + [out], k) == Held(ops, outs, k) {
      HeldSame(ops, outs, out, k);
    }
  }

  class Allocator {
    const base: int
    var h: Headers
    /** 0 before the first malloc. */
    var freep: int
    /** The end of the process's memory. */
    var brk: int
    ghost var ring: seq<int>
    ghost var blocks: set<int>
    /** The bytes sbrk has given to the allocator. */
    ghost var mine: iset<int>

    ghost function Now(): State
      reads this
    {
      State(h, ring, blocks)
    }

    /** The blocks tile exactly the memory obtained from sbrk. */
    ghost predicate Tiled()
      reads this
    {
      forall y :: y in mine <==> Covered(h.units, blocks, y)
    }

    ghost predicate Valid()
      reads this
    {
      && 0 < base && base + HDR <= brk < KERNBASE && Tiled()
      && if freep == 0 then blocks == {} && ring == []
         else Weak(Now(), base, brk) && NoTouch(h, ring) && freep in ring
    }

    /** The search of free: the ring header after which bp belongs. */
    method Search(bp: int) returns (p: int, ghost t: nat)
      requires Valid() && Live(ring, blocks, bp)
      ensures Place(ring, t, bp) && p == ring[t] && p in h.ptr && h.ptr[p] == ring[Succ(ring, t)]
      ensures freep != 0
    {
      assert ring[0] < bp;
      t := FindPlace(ring, bp);
      p := freep;
      ghost var n := |ring|;
      ghost var j :| 0 <= j < n && ring[j] == freep;
      assert Link(h.ptr, ring, j);
      while !(bp > p && bp < h.ptr[p])
        invariant 0 <= j < n && p == ring[j] && Link(h.ptr, ring, j)
        decreases if j <= t then t - j else t - j + n
      {
        assert j + 1 < n ==> ring[j] < ring[j + 1];
        assert 0 < j ==> ring[0] < ring[j];
        if p >= h.ptr[p] && (bp > p || bp < h.ptr[p]) {
          assert Place(ring, j, bp);
          return;
        }
        assert !Place(ring, j, bp);
        p, j := h.ptr[p], Succ(ring, j);
        assert Link(h.ptr, ring, j);
      }
      assert Place(ring, j, bp);
    }
  
    /** The live blocks and their sizes, as the program that uses them sees them. */
    ghost predicate IsLive(a: int)
      reads this
    {
      Live(ring, blocks, a)
    }

    ghost function UnitsOf(a: int): int
      reads this
    {
      Size(h, a)
    }

    /** Nothing has been allocated and no memory obtained. */
    constructor (base: int, brk: int)
      requires 0 < base && base + HDR <= brk < KERNBASE
      ensures Holding(map[]) && freep == 0 && mine == iset{} && this.base == base && this.brk == brk
    {
      this.base, this.brk := base, brk;
      h, freep := Headers(map[], map[]), 0;
      ring, blocks, mine := [], {}, iset{};
    }

    /** The free block freep names, or the next one, has n units or more. */
    ghost predicate NearFreep(n: int)
      reads this
    {
      exists t, k ::
        0 <= t < |ring| && ring[t] == freep && (k == t || k == t + 1) && 0 <= k < |ring| && UnitsOf(ring[k]) >= n
    }

    method JoinAbove(p: int, bp: int)
      requires p in h.ptr && bp in h.units && h.ptr[p] in h.units && h.ptr[p] in h.ptr
      modifies this`h
      ensures h == Above(old(h), p, bp)
    {
      if bp + HDR * h.units[bp] == h.ptr[p] {
        var q := h.ptr[p];
        h := h.(units := h.units[bp := h.units[bp] + h.units[q]]);
        h := h.(ptr := h.ptr[bp := h.ptr[q]]);
      } else {
        h := h.(ptr := h.ptr[bp := h.ptr[p]]);
      }
    }

    method JoinBelow(p: int, bp: int)
      requires p in h.units && bp in h.units && bp in h.ptr
      modifies this`h
      ensures h == Lower(old(h), p, bp)
    {
      if p + HDR * h.units[p] == bp {
        h := h.(units := h.units[p := h.units[p] + h.units[bp]]);
        h := h.(ptr := h.ptr[p := h.ptr[bp]]);
      } else {
        h := h.(ptr := h.ptr[p := bp]);
      }
    }

    /** free of a live block's payload. */
    method Free(ap: int)
      requires Valid() && IsLive(ap - HDR)
      modifies this
      ensures Valid() && freep != 0 && brk == old(brk) && mine == old(mine)
      ensures Lost(old(Now()), Now(), ap - HDR) && NearFreep(old(UnitsOf(ap - HDR)))
    {
      hide Weak, NoTouch, Live, Freed, Coalesce, Covered, Gap;
      var bp := ap - HDR;
      var p, t := Search(bp);
      ghost var s := Now();
      FreedOk(s, base, brk, t, bp);
      FreeCode(s, base, brk, t, bp);
      RingFacts(s, base, brk, t);
      JoinAbove(p, bp);
      JoinBelow(p, bp);
      freep := p;
      ghost var f := Freed(s, t, bp);
      ring, blocks := f.ring, f.blocks;
      assert h == f.h && ring[t] == freep;
    }

    /** sbrk: memory is added at the break, which other callers of sbrk may have moved up.
        A negative n gives memory back; giving back all of it is reported as a failure. */
    method Sbrk(n: int, grant: int) returns (p: int)
      requires 0 < brk < KERNBASE
      modifies this`brk, this`mine
      ensures p == -1 <==> Refused(old(brk), grant, n) || MovedBreak(old(brk), grant) + n == 0
      ensures Refused(old(brk), grant, n) ==>
        old(brk) <= brk == MovedBreak(old(brk), grant) < KERNBASE && mine == old(mine)
      ensures n > 0 && p != -1 ==>
        && old(brk) <= p && p == old(brk) + grant && brk == p + n < KERNBASE && mine == old(mine) + Bytes(p, p + n)
    {
      var refused := Refused(brk, grant, n);
      brk := MovedBreak(brk, grant);
      if refused {
        return -1;
      }
      p := brk;
      if n >= 0 {
        brk := brk + n;
        mine := mine + Bytes(p, p + n);
        return;
      }
      if brk + n >= 0 {
        mine := mine * Bytes(base, brk + n);
        if brk + n == 0 {
          return -1;
        }
        brk := brk + n;
      }
    }

    /** morecore: on success a free block of at least nunits units is at, or right after,
        the header freep names. From 2^28 units on sbrk takes memory back instead. */
    method Morecore(nunits: nat, grant: int) returns (r: Result)
      requires Valid() && freep != 0 && 1 <= nunits <= UINT / HDR
      modifies this
      ensures r.Unowned? <==> nunits >= KERNBASE / HDR
      ensures r.Null? <==> Refused(old(brk), grant, SbrkArg(CoreUnits(nunits)))
      ensures r.Null? ==> mine == old(mine) && brk == MovedBreak(old(brk), grant)
      ensures !r.Unowned? ==> Valid() && freep != 0 && Kept(old(Now()), Now())
      ensures r.Block? ==> NearFreep(nunits) && Obtained(old(brk), old(mine), grant, CoreUnits(nunits), brk, mine)
      ensures r.Block? ==> brk - old(brk) - grant == if nunits <= 4096 then 32768 else HDR * nunits
      ensures r.Block? && old(NoFit(Now(), nunits)) ==> TopOnly(Now(), nunits, brk)
    {
      hide Weak, NoTouch, Covered, Lost, Live;
      var nu := CoreUnits(nunits);
      ghost var s, was := Now(), brk;
      ExactCore(nunits);
      var n := SbrkArg(nu);
      var p := Sbrk(n, grant);
      if n <= 0 {
        return Unowned;
      }
      if p == -1 {
        HigherBreak(s, base, was, brk);
        return Null;
      }
      ExtendOk(s, base, was, p, nu);
      h := h.(units := h.units[p := nu]);
      blocks := blocks + {p};
      ghost var e := Now();
      assert Gained(s, e, p, nu);
      Free(p + HDR);
      GainedLost(s, e, Now(), p, nu);
      if NoFit(s, nunits) {
        NewOnTop(s, Now(), base, was, p, brk, nunits);
      }
      return Block(freep);
    }

    /** malloc's way of taking nunits from the free block at ring position j: all of it, or
        its tail. */
    method Take(prevp: int, p: int, nunits: nat, ghost j: nat) returns (b: int)
      requires Valid() && freep != 0 && 0 < j < |ring| && ring[j] == p && ring[j - 1] == prevp
      requires 1 <= nunits <= UnitsOf(p)
      modifies this
      ensures Valid() && freep != 0 && mine == old(mine) && brk == old(brk) && Gained(old(Now()), Now(), b, nunits)
      ensures b + HDR * nunits == p + HDR * old(UnitsOf(p))
    {
      hide Weak, NoTouch, Live, Gap, Covered;
      ghost var s := Now();
      RingFacts(s, base, brk, j);
      RingFacts(s, base, brk, j - 1);
      if h.units[p] == nunits {
        UnlinkOk(s, base, brk, j);
        UnlinkGaps(s, base, brk, j);
        assert Removed(ring, j)[j - 1] == prevp;
        h := h.(ptr := h.ptr[prevp := h.ptr[p]]);
        ring := Removed(ring, j);
        b := p;
      } else {
        CutOk(s, base, brk, j, nunits);
        CutGaps(s, base, brk, j, nunits);
        h := h.(units := h.units[p := h.units[p] - nunits]);
        b := p + HDR * h.units[p];
        h := h.(units := h.units[b := nunits]);
        blocks := blocks + {b};
      }
      freep := prevp;
    }
  
    /** The first call makes the ring of the static header alone. */
    method Start()
      requires Valid() && freep == 0
      modifies this
      ensures Valid() && freep == base && ring == [base] && mine == old(mine) && blocks == old(blocks)
      ensures brk == old(brk) && UnitsOf(base) == 0 && Kept(old(Now()), Now()) && old(ring) == []
    {
      h := Headers(h.ptr[base := base], h.units[base := 0]);
      freep := base;
      ring := [base];
    }

    /** malloc: it terminates for every request, and fails exactly when no free block is
        large enough and sbrk fails. A block it returns was not live, has exactly the units
        asked for, overlaps no other block, and every other live block keeps its size;
        without memory nothing changes. */
    method Malloc(nbytes: nat, grant: int) returns (r: Result)
      requires Valid() && nbytes < UINT
      modifies this
      ensures r.Unowned? <==> Nunits(nbytes) >= KERNBASE / HDR
      ensures r.Null? <==> old(OutOfMemory(Now(), brk, nbytes, grant))
      ensures !r.Unowned? ==> Valid() && Follows(old(Moment()), Moment(), Request(nbytes, grant), r)
      ensures r.Block? ==> (nbytes <= KERNBASE - 16 <==> HDR * (Nunits(nbytes) - 1) >= nbytes)
      ensures r.Block? && old(NoFit(Now(), Nunits(nbytes))) ==>
        brk - old(brk) - grant == if Nunits(nbytes) <= 4096 then 32768 else HDR * Nunits(nbytes)
    {
      hide Valid, Nunits, SbrkArg, CoreUnits, NoFit, Scanned, Kept, Gained, Refused, Size, NearFreep, Ahead, Obtained,
        TopOnly, CutFrom, NextFit;
      var nunits := Nunits(nbytes);
      UnitsRange(nbytes);
      GoodRequest(nbytes);
      ExactCore(nunits);
      KeptSame(Now());
      if freep == 0 {
        Start();
        EmptyFit(old(Now()), Now(), base, nunits);
      }
      var prevp := freep;
      ghost var s := Now();
      ghost var f := Freep();
      ghost var i, grown := f, false;
      ScanStart(s, f, nunits);
      HeaderAt(f);
      var p := h.ptr[prevp];
      while true
        invariant Valid() && freep != 0 && Kept(old(Now()), Now())
        invariant 0 <= f < |ring| && ring[f] == freep
        invariant 0 <= i < |ring| && prevp == ring[i] && p == ring[Succ(ring, i)]
        invariant grown ==> UnitsOf(ring[f]) >= nunits || UnitsOf(p) >= nunits
        invariant grown ==> nunits < KERNBASE / HDR && !Refused(old(brk), grant, SbrkArg(CoreUnits(nunits)))
        invariant grown ==> NoFit(s, nunits) && Obtained(old(brk), old(mine), grant, CoreUnits(nunits), brk, mine)
        invariant grown ==> TopOnly(Now(), nunits, brk)
        invariant grown ==> brk - old(brk) - grant == if nunits <= 4096 then 32768 else HDR * nunits
        invariant old(freep) == 0 ==> NoFit(s, nunits)
        invariant old(freep) != 0 ==> s == old(Now()) && (!grown ==> freep == old(freep))
        invariant !grown ==> mine == old(mine) && Now() == s && brk == old(brk) && Scanned(s, i, f, nunits)
        decreases !grown, Ahead(Succ(ring, i), f, |ring|)
      {
        ghost var j := Succ(ring, i);
        HeaderAt(j);
        if h.units[p] >= nunits {
          ghost var u := Now();
          if grown {
            OnTop(u, j, nunits, brk);
          } else {
            Fits(s, i, f, nunits);
          }
          var b := Take(prevp, p, nunits, j);
          if !grown {
            CutHere(s, u.ring[f], nunits, f, j, b);
          }
          KeptGained(old(Now()), u, Now(), b, nunits);
          return Block(b + HDR);
        }
        OnePlace(j, f);
        AheadNext(ring, j, f);
        if p == freep {
          ScanEnd(s, i, f, nunits);
          ghost var u := Now();
          var m := Morecore(nunits, grant);
          if !m.Block? {
            if m.Null? {
              KeptAgain(old(Now()), u, Now());
            }
            return m;
          }
          KeptAgain(old(Now()), u, Now());
          f := NearPlace(nunits);
          HeaderAt(f);
          p, i, grown := freep, f, true;
        } else {
          if !grown {
            ScanNext(s, i, f, nunits);
          }
          i := j;
        }
        prevp, p := p, h.ptr[p];
      }
    }

    lemma Freep() returns (f: nat)
      requires Valid() && freep != 0
      ensures f < |ring| && ring[f] == freep
    {
      f :| 0 <= f < |ring| && ring[f] == freep;
    }

    lemma NearPlace(n: int) returns (t: nat)
      requires Valid() && freep != 0 && NearFreep(n)
      ensures t < |ring| && ring[t] == freep && (UnitsOf(ring[t]) >= n || UnitsOf(ring[Succ(ring, t)]) >= n)
    {
      var t', k :|
        0 <= t' < |ring| && ring[t'] == freep && (k == t' || k == t' + 1) && 0 <= k < |ring| && UnitsOf(ring[k]) >= n;
      t := t';
    }

    lemma HeaderAt(j: nat)
      requires Valid() && freep != 0 && j < |ring|
      ensures ring[j] in h.ptr && h.ptr[ring[j]] == ring[Succ(ring, j)]
      ensures ring[j] in h.units && HDR * h.units[ring[j]] < KERNBASE && UnitsOf(ring[j]) == h.units[ring[j]]
      ensures j == 0 ==> h.units[ring[j]] == 0
    {
      RingFacts(Now(), base, brk, j);
    }

    lemma OnePlace(j: nat, f: nat)
      requires Valid() && freep != 0 && j < |ring| && f < |ring|
      ensures ring[j] == ring[f] <==> j == f
    {
    }

    ghost function Moment(): Heap
      reads this
    {
      Heap(Now(), freep, brk, mine)
    }

    ghost predicate Holding(held: map<int, nat>)
      reads this
    {
      Valid() && Holds(Moment(), base, held)
    }

    /** One call; a release of what is not held is the caller's error and is skipped. */
    method Do(op: Op, held: map<int, nat>) returns (out: Result, held': map<int, nat>)
      requires Holding(held) && (op.Request? ==> op.nbytes <= KERNBASE - 16)
      modifies this
      ensures Holding(held') && held' == HeldNext(held, op, out)
      ensures op.Request? ==> AnsweredAs(old(Moment()), held, op, out)
      ensures Follows(old(Moment()), Moment(), op, out)
    {
      hide Weak, NoTouch, Live, Covered, Nunits, OutOfMemory, Size;
      match op {
        case Request(nbytes, grant) =>
          SmallRequest(nbytes);
          out := Malloc(nbytes, grant);
          held' := if out.Block? then held[out.ap := nbytes] else held;
        case Release(ap) =>
          out, held' := Null, held - {ap};
          if ap in held {
            assert IsLive(ap - HDR);
            Free(ap);
          }
      }
    }

    /** Any run of requests of at most 2^31 - 16 bytes and of frees: at every moment the
        heap is well formed, the live blocks are exactly those requested and not freed,
        each has room for what was asked, and a request fails exactly when no free block
        is large enough and sbrk fails. */
    method Run(ops: seq<Op>) returns (outs: seq<Result>, ghost past: seq<Heap>)
      requires Holding(map[])
      requires forall i :: 0 <= i < |ops| && ops[i].Request? ==> ops[i].nbytes <= KERNBASE - 16
      modifies this
      ensures |outs| == |ops| && History(base, ops, outs, past)
      ensures past[0] == old(Moment()) && past[|ops|] == Moment()
    {
      hide Valid, Holds, AnsweredAs, HeldNext, Follows, History;
      outs, past := [], [Moment()];
      HistoryStart(base, ops, Moment());
      var i, held := 0, map[];
      while i < |ops|
        invariant 0 <= i <= |ops| && |outs| == i && |past| == i + 1 && Holding(held)
        invariant past[0] == old(Moment()) && past[i] == Moment() && held == Held(ops, outs, i)
        invariant History(base, ops, outs, past)
      {
        var out;
        out, held := Do(ops[i], held);
        HistoryNext(base, ops, outs, past, out, Moment());
        outs := outs + [out];
        past := past + [Moment()];
        i := i + 1;
      }
      HistorySize(base, ops, outs, past);
    }
  }

  /** Steps from ring position j on to position f. */
  function Ahead(j: int, f: int, n: int): int {
    if j <= f then f - j else f - j + n
  }

  lemma AheadNext(ring: seq<int>, j: nat, f: nat)
    requires j < |ring| && f < |ring|
    ensures Ahead(j, f, |ring|) >= 0
    ensures j != f ==> Ahead(Succ(ring, j), f, |ring|) == Ahead(j, f, |ring|) - 1
  {
  }

  /** The search that started after position f has found no block of n units and is about
      to look at the position after i. */
  predicate Scanned(s: State, i: int, f: int, n: int) {
    Passed(s, Succ(s.ring, i), f, n)
  }

  lemma ScanStart(s: State, f: nat, n: int)
    requires f < |s.ring|
    ensures Scanned(s, f, f, n)
  {
  }

  lemma ScanNext(s: State, i: nat, f: nat, n: int)
    requires Scanned(s, i, f, n) && i < |s.ring| && f < |s.ring|
    requires Succ(s.ring, i) != f && Size(s.h, s.ring[Succ(s.ring, i)]) < n
    ensures Scanned(s, Succ(s.ring, i), f, n)
  {
  }

  lemma ScanEnd(s: State, i: nat, f: nat, n: int)
    requires Scanned(s, i, f, n) && i < |s.ring| && f < |s.ring|
    requires Succ(s.ring, i) == f && Size(s.h, s.ring[f]) < n
    ensures NoFit(s, n)
  {
  }

  lemma Fits(s: State, i: nat, f: nat, n: int)
    requires i < |s.ring| && f < |s.ring| && Scanned(s, i, f, n) && Size(s.h, s.ring[Succ(s.ring, i)]) >= n
    ensures !NoFit(s, n) && NextFit(s, s.ring[f], n, f, Succ(s.ring, i))
  {
  }

  /** Neither before the first call nor with the static header alone does anything fit. */
  lemma EmptyFit(s: State, s': State, base: int, n: int)
    requires s.ring == [] && s'.ring == [base] && Size(s'.h, base) < n
    ensures NoFit(s, n) && NoFit(s', n)
  {
  }

  // ---------------------------------------------------------------- free memory in one piece

  /** Byte y was obtained and is in no live block. */
  ghost predicate FreeAt(s: State, y: int) {
    Covered(s.h.units, s.blocks, y) && forall a :: Live(s.ring, s.blocks, a) ==> !In(s.h.units, s.blocks, a, y)
  }

  ghost predicate FreeRun(s: State, lo: int, hi: int) {
    forall y :: lo <= y < hi ==> FreeAt(s, y)
  }

  lemma FreeBlockAt(s: State, y: int) returns (c: int)
    requires FreeAt(s, y)
    ensures c in s.ring && In(s.h.units, s.blocks, c, y)
  {
    c :| In(s.h.units, s.blocks, c, y);
  }

  /** Free memory in one piece is in one free block, because free blocks do not touch. */
  lemma RunFits(s: State, base: int, brk: int, lo: int, hi: int) returns (c: int)
    requires Tidy(s, base, brk) && FreeRun(s, lo, hi) && lo < hi
    ensures c in s.ring && c in s.blocks && c in s.h.units && c <= lo && hi <= c + HDR * s.h.units[c]
  {
    hide Tidy, FreeAt;
    c := FreeBlockAt(s, lo);
    var end := c + HDR * s.h.units[c];
    if end < hi {
      assert FreeAt(s, end);
      var d := FreeBlockAt(s, end);
      FreeEnds(s, base, brk, c, d);
    }
  }

  /** Every free block of n units ends at the break. */
  predicate TopOnly(s: State, n: int, brk: int) {
    forall q :: 0 <= q < |s.ring| && Size(s.h, s.ring[q]) >= n ==> s.ring[q] + HDR * Size(s.h, s.ring[q]) == brk
  }

  /** The same live blocks, over the bytes of before and those from p to brk. */
  ghost predicate Grown(s: State, s': State, p: int, brk: int) {
    && Kept(s, s')
    && forall y :: Covered(s'.h.units, s'.blocks, y) <==> Covered(s.h.units, s.blocks, y) || p <= y < brk
  }

  lemma FreeBlockRun(s: State, base: int, brk: int, c: int)
    requires Tidy(s, base, brk) && c in s.ring && c in s.blocks
    ensures c in s.h.units && FreeRun(s, c, c + HDR * s.h.units[c])
  {
    forall y | c <= y < c + HDR * s.h.units[c] ensures FreeAt(s, y) {
      assert In(s.h.units, s.blocks, c, y);
    }
  }

  /** After growing, only the block that has the new memory can be larger than before. */
  lemma NewOnTop(s: State, s': State, base: int, was: int, p: int, brk: int, n: nat)
    requires Tidy(s, base, was) && Tidy(s', base, brk) && Grown(s, s', p, brk) && was <= p < brk
    requires NoFit(s, n) && n >= 1
    ensures TopOnly(s', n, brk)
  {
    hide Tidy, Grown, NoFit;
    forall q | 0 <= q < |s'.ring| && Size(s'.h, s'.ring[q]) >= n
      ensures s'.ring[q] + HDR * Size(s'.h, s'.ring[q]) == brk
    {
      NewOnTopAt(s, s', base, was, p, brk, n, q);
    }
  }

  lemma NewOnTopAt(s: State, s': State, base: int, was: int, p: int, brk: int, n: nat, q: nat)
    requires Tidy(s, base, was) && Tidy(s', base, brk) && Grown(s, s', p, brk) && was <= p < brk
    requires NoFit(s, n) && n >= 1 && q < |s'.ring| && Size(s'.h, s'.ring[q]) >= n
    ensures s'.ring[q] + HDR * Size(s'.h, s'.ring[q]) == brk
  {
    hide Tidy, Grown, NoFit, FreeAt, FreeRun;
    var c := s'.ring[q];
    HeadEmpty(s', base, brk, q);
    FreeBlockRun(s', base, brk, c);
    var end := c + HDR * s'.h.units[c];
    BelowBreak(s', base, brk, c);
    if end < brk {
      if end <= p {
        OldRun(s, s', p, brk, c, end);
        var a := RunFits(s, base, was, c, end);
        TooLarge(s, a, n);
      } else {
        NewRun(s, s', base, was, p, brk);
        RunByte(s', p, brk, end);
        var d := FreeBlockAt(s', end);
        FreeEnds(s', base, brk, c, d);
      }
    }
  }

  lemma OnTop(s: State, j: nat, n: int, brk: int)
    requires TopOnly(s, n, brk) && j < |s.ring| && Size(s.h, s.ring[j]) >= n
    ensures s.ring[j] + HDR * Size(s.h, s.ring[j]) == brk
  {
  }

  lemma CutHere(s: State, freep: int, n: int, f: int, j: int, b: int)
    requires NextFit(s, freep, n, f, j) && b + HDR * n == s.ring[j] + HDR * Size(s.h, s.ring[j])
    ensures CutFrom(s, freep, n, b)
  {
  }

  lemma TooLarge(s: State, a: int, n: int)
    requires a in s.ring && Size(s.h, a) >= n
    ensures !NoFit(s, n)
  {
    var q :| 0 <= q < |s.ring| && s.ring[q] == a;
    assert Size(s.h, s.ring[q]) >= n;
  }

  lemma RunByte(s: State, lo: int, hi: int, y: int)
    requires FreeRun(s, lo, hi) && lo <= y < hi
    ensures FreeAt(s, y)
  {
  }

  lemma BelowBreak(s: State, base: int, brk: int, c: int)
    requires Tidy(s, base, brk) && c in s.blocks
    ensures c in s.h.units && c + HDR * s.h.units[c] <= brk
  {
  }

  lemma OldRun(s: State, s': State, p: int, brk: int, lo: int, hi: int)
    requires Grown(s, s', p, brk) && FreeRun(s', lo, hi) && hi <= p
    ensures FreeRun(s, lo, hi)
  {
    LiveBytes(s, s', p, brk);
    forall y | lo <= y < hi ensures FreeAt(s, y) {
      assert FreeAt(s', y);
    }
  }

  lemma LiveBytes(s: State, s': State, p: int, brk: int)
    requires Grown(s, s', p, brk)
    ensures forall a, y :: Live(s.ring, s.blocks, a) && In(s.h.units, s.blocks, a, y) ==>
      In(s'.h.units, s'.blocks, a, y)
  {
    forall a, y | Live(s.ring, s.blocks, a) && In(s.h.units, s.blocks, a, y) ensures In(s'.h.units, s'.blocks, a, y) {
      assert Live(s'.ring, s'.blocks, a) && Size(s'.h, a) == Size(s.h, a);
    }
  }

  lemma NewRun(s: State, s': State, base: int, was: int, p: int, brk: int)
    requires Tidy(s, base, was) && Grown(s, s', p, brk) && was <= p
    ensures FreeRun(s', p, brk)
  {
    forall y | p <= y < brk ensures FreeAt(s', y) {
      if a :| Live(s'.ring, s'.blocks, a) && In(s'.h.units, s'.blocks, a, y) {
        assert Live(s.ring, s.blocks, a);
        BelowBreak(s, base, was, a);
      }
    }
  }

  // ---------------------------------------------------------------- the free blocks are determined

  /** Two heaps with the same live blocks over the same bytes. */
  ghost predicate SameUse(s: State, t: State) {
    Kept(s, t) && forall y :: Covered(s.h.units, s.blocks, y) == Covered(t.h.units, t.blocks, y)
  }

  predicate Tidy(s: State, base: int, brk: int) {
    Weak(s, base, brk) && NoTouch(s.h, s.ring)
  }

  lemma SameUseSym(s: State, t: State)
    requires SameUse(s, t)
    ensures SameUse(t, s)
  {
    hide Covered, Size;
  }

  lemma LiveByte(s: State, base: int, brk: int, t: State, c: int, y: int)
    requires Weak(s, base, brk) && Kept(s, t) && Live(t.ring, t.blocks, c) && In(t.h.units, t.blocks, c, y)
    ensures Live(s.ring, s.blocks, c) && In(s.h.units, s.blocks, c, y)
  {
    assert Live(s.ring, s.blocks, c);
  }

  /** A byte in a free block of s is in a free block of t. */
  lemma FreeByte(s: State, base: int, brk: int, t: State, a: int, y: int) returns (c: int)
    requires Tidy(s, base, brk) && SameUse(s, t) && a in s.ring && In(s.h.units, s.blocks, a, y)
    ensures c in t.ring && In(t.h.units, t.blocks, c, y)
  {
    hide Apart, Kept, RingOk;
    assert Covered(s.h.units, s.blocks, y);
    c :| In(t.h.units, t.blocks, c, y);
    if c !in t.ring {
      LiveByte(s, base, brk, t, c, y);
      OneBlock(s.h.units, s.blocks, a, c, y);
    }
  }

  /** Free blocks are strictly apart. */
  lemma FreeApart(s: State, base: int, brk: int, i: nat, j: nat)
    requires Tidy(s, base, brk) && 1 <= i < j < |s.ring|
    ensures s.ring[i] in s.h.units && s.ring[i] + HDR * s.h.units[s.ring[i]] < s.ring[j]
  {
    hide Links;
    assert s.ring[i] in s.blocks && s.ring[i + 1] in s.blocks && s.ring[i] < s.ring[i + 1];
    assert Gap(s.h, s.ring, i);
    if i + 1 < j {
      assert s.ring[i + 1] < s.ring[j];
    }
  }

  lemma FreePlace(s: State, base: int, brk: int, a: int) returns (i: nat)
    requires Tidy(s, base, brk) && a in s.ring && a in s.blocks
    ensures 1 <= i < |s.ring| && s.ring[i] == a && a in s.h.units
  {
    i :| 0 <= i < |s.ring| && s.ring[i] == a;
  }

  /** The byte before a free block, and the one after it, is in no free block. */
  lemma FreeEnds(s: State, base: int, brk: int, a: int, d: int)
    requires Tidy(s, base, brk) && a in s.ring && a in s.blocks && d in s.ring && d in s.blocks
    ensures a in s.h.units
    ensures !In(s.h.units, s.blocks, d, a - 1) && !In(s.h.units, s.blocks, d, a + HDR * s.h.units[a])
  {
    hide Tidy;
    var i := FreePlace(s, base, brk, d);
    var j := FreePlace(s, base, brk, a);
    if i < j {
      FreeApart(s, base, brk, i, j);
      Sizes(s, base, brk, a);
    } else if j < i {
      FreeApart(s, base, brk, j, i);
      Sizes(s, base, brk, a);
    }
  }

  lemma Sizes(s: State, base: int, brk: int, a: int)
    requires Tidy(s, base, brk) && a in s.blocks
    ensures a in s.h.units && s.h.units[a] >= 1
  {
  }

  /** Every free block of s is one of t, with the same size. */
  lemma FreeThere(s: State, brk: int, t: State, brk': int, base: int, a: int)
    requires Tidy(s, base, brk) && Tidy(t, base, brk') && SameUse(s, t) && a in s.ring && a in s.blocks
    ensures a in t.ring && a in t.blocks && Size(t.h, a) == Size(s.h, a)
  {
    hide Tidy, SameUse;
    SameUseSym(s, t);
    Sizes(s, base, brk, a);
    var c := FreeByte(s, base, brk, t, a, a);
    if c < a {
      var d := FreeByte(t, base, brk', s, c, a - 1);
      FreeEnds(s, base, brk, a, d);
    }
    Sizes(t, base, brk', a);
    if Size(s.h, a) < Size(t.h, a) {
      var d := FreeByte(t, base, brk', s, a, a + HDR * s.h.units[a]);
      FreeEnds(s, base, brk, a, d);
    } else if Size(t.h, a) < Size(s.h, a) {
      var d := FreeByte(s, base, brk, t, a, a + HDR * t.h.units[a]);
      FreeEnds(t, base, brk', a, d);
    }
  }

  lemma HoldsTidy(x: Heap, base: int, held: map<int, nat>)
    requires Holds(x, base, held)
    ensures x.s.blocks != {} || x.s.ring != [] ==> Tidy(x.s, base, x.brk)
    ensures forall y :: y in x.mine <==> Covered(x.s.h.units, x.s.blocks, y)
  {
    hide Covered, Weak, NoTouch;
  }

  lemma HeadEmpty(s: State, base: int, brk: int, q: nat)
    requires Tidy(s, base, brk) && q < |s.ring| && Size(s.h, s.ring[q]) >= 1
    ensures s.ring[q] in s.blocks
  {
  }

  lemma FitsToo(x: Heap, y: Heap, base: int, held: map<int, nat>, n: int)
    requires Holds(x, base, held) && Holds(y, base, held) && x.mine == y.mine && Kept(x.s, y.s) && n >= 1
    ensures NoFit(y.s, n) ==> NoFit(x.s, n)
  {
    hide Holds, Tidy, Kept, Covered, Size;
    HoldsTidy(x, base, held);
    HoldsTidy(y, base, held);
    if q :| 0 <= q < |x.s.ring| && Size(x.s.h, x.s.ring[q]) >= n {
      var a := x.s.ring[q];
      HeadEmpty(x.s, base, x.brk, q);
      FirstByte(x.s, base, x.brk, a);
      SomeBlock(y.s, a);
      FreeThere(x.s, x.brk, y.s, y.brk, base, a);
      var p :| 0 <= p < |y.s.ring| && y.s.ring[p] == a;
      assert Size(y.s.h, y.s.ring[p]) >= n;
    }
  }

  lemma FirstByte(s: State, base: int, brk: int, a: int)
    requires Tidy(s, base, brk) && a in s.blocks
    ensures Covered(s.h.units, s.blocks, a)
  {
    Sizes(s, base, brk, a);
    assert In(s.h.units, s.blocks, a, a);
  }

  lemma SomeBlock(s: State, y: int)
    requires Covered(s.h.units, s.blocks, y)
    ensures s.blocks != {}
  {
  }

  /** Heaps in which the same blocks are live over the same bytes. */
  ghost predicate SameHeap(x: Heap, y: Heap) {
    x.brk == y.brk && x.mine == y.mine && Kept(x.s, y.s)
  }

  /** The free blocks are determined by the bytes obtained and the live blocks: a request
      fails in one heap if and only if it fails in the other. */
  lemma SameFree(x: Heap, y: Heap, base: int, held: map<int, nat>, nbytes: nat, grant: int)
    requires Holds(x, base, held) && Holds(y, base, held) && SameHeap(x, y)
    ensures NoFit(x.s, Nunits(nbytes)) <==> NoFit(y.s, Nunits(nbytes))
    ensures OutOfMemory(x.s, x.brk, nbytes, grant) <==> OutOfMemory(y.s, y.brk, nbytes, grant)
  {
    hide Holds, NoFit, Nunits, Kept;
    UnitsRange(nbytes);
    KeptSym(x.s, y.s);
    FitsToo(x, y, base, held, Nunits(nbytes));
    FitsToo(y, x, base, held, Nunits(nbytes));
  }

  lemma KeptSym(s: State, t: State)
    requires Kept(s, t)
    ensures Kept(t, s)
  {
  }

  lemma SameNext(x: Heap, x': Heap, y: Heap, y': Heap, base: int, held: map<int, nat>, op: Op, out: Result)
    requires Holds(x, base, held) && Holds(y, base, held) && SameHeap(x, y)
    requires Follows(x, x', op, out) && Follows(y, y', op, out)
    ensures SameHeap(x', y')
  {
    hide Holds, NoFit, Nunits, CoreUnits, Size, Bytes, Live;
    if op.Request? {
      SameFree(x, y, base, held, op.nbytes, op.grant);
    }
  }

  /** Whether a request fails is determined by the calls and the answers before it: two
      histories of the same calls and answers, from the same start, agree on every heap as
      far as blocks, bytes and the break go, and so on every refusal. */
  lemma {:induction false} Determined(base: int, ops: seq<Op>, outs: seq<Result>,
                                      past: seq<Heap>, past': seq<Heap>, k: nat)
    requires History(base, ops, outs, past) && History(base, ops, outs, past') && k <= |outs|
    requires SameHeap(past[0], past'[0])
    ensures SameHeap(past[k], past'[k])
    ensures k < |ops| && ops[k].Request? ==>
      (OutOfMemory(past[k].s, past[k].brk, ops[k].nbytes, ops[k].grant) <==>
       OutOfMemory(past'[k].s, past'[k].brk, ops[k].nbytes, ops[k].grant))
  {
    hide Holds, Follows, AnsweredAs, SameHeap, Held, OutOfMemory;
    if k == 0 {
    } else {
      Determined(base, ops, outs, past, past', k - 1);
      assert CallAt(ops, outs, past, k - 1) && CallAt(ops, outs, past', k - 1);
      SameNext(past[k - 1], past[k], past'[k - 1], past'[k], base, Held(ops, outs, k - 1), ops[k - 1], outs[k - 1]);
    }
    if k < |ops| && ops[k].Request? {
      SameFree(past[k], past'[k], base, Held(ops, outs, k), ops[k].nbytes, ops[k].grant);
    }
  }

  // ---------------------------------------------------------------- memory in reserve

  /** The units that the requests among calls k to m - 1 need. */
  function Needs(ops: seq<Op>, k: nat, m: nat): nat
    requires k <= m <= |ops|
  {
    if k == m then 0 else Needs(ops, k, m - 1) + if ops[m - 1].Request? then Nunits(ops[m - 1].nbytes) else 0
  }

  /** A request for units of a free run is met, and what is left of the run stays free,
      because a block is cut from the end of a free block. */
  lemma RunShrinks(x: Heap, x': Heap, base: int, held: map<int, nat>, held': map<int, nat>,
                   op: Op, out: Result, lo: int, u: nat)
    requires Holds(x, base, held) && Holds(x', base, held') && Follows(x, x', op, out) && op.Request?
    requires AnsweredAs(x, held, op, out) && FreeRun(x.s, lo, lo + HDR * u) && Nunits(op.nbytes) <= u
    ensures out.Block? && FreeRun(x'.s, lo, lo + HDR * (u - Nunits(op.nbytes)))
  {
    hide Holds, Nunits, FreeRun, FreeAt, Tidy, Passed, Gained, NoFit;
    var n := Nunits(op.nbytes);
    UnitsRange(op.nbytes);
    HoldsTidy(x, base, held);
    HoldsTidy(x', base, held');
    RunByte(x.s, lo, lo + HDR * u, lo);
    var c := FreeBlockAt(x.s, lo);
    c := RunFits(x.s, base, x.brk, lo, lo + HDR * u);
    TooLarge(x.s, c, n);
    var b := out.ap - HDR;
    var f, j :| NextFit(x.s, x.freep, n, f, j) && b + HDR * n == x.s.ring[j] + HDR * Size(x.s.h, x.s.ring[j]);
    CutBeyond(x.s, base, x.brk, f, j, x.freep, c, n);
    RunKept(x.s, x'.s, b, n, lo, lo + HDR * (u - n), lo + HDR * u);
  }

  /** The end of a free block is above all but the end of any other, or below it. */
  lemma CutBeyond(s: State, base: int, brk: int, f: int, j: int, freep: int, c: int, n: nat)
    requires Tidy(s, base, brk) && NextFit(s, freep, n, f, j) && n >= 1 && c in s.blocks
    ensures var a := s.ring[j];
      && a in s.h.units && c in s.h.units
      && (a == c || a + HDR * s.h.units[a] <= c || c + HDR * s.h.units[c] + HDR * n <= a + HDR * s.h.units[a])
  {
    HeadEmpty(s, base, brk, j);
  }

  lemma RunKept(s: State, s': State, b: int, n: int, lo: int, hi: int, top: int)
    requires Gained(s, s', b, n) && FreeRun(s, lo, top) && hi <= top && (b + HDR * n <= lo || hi <= b)
    requires forall y :: Covered(s'.h.units, s'.blocks, y) <==> Covered(s.h.units, s.blocks, y)
    ensures FreeRun(s', lo, hi)
  {
    hide Covered;
    forall y | lo <= y < hi ensures FreeAt(s', y) {
      assert FreeAt(s, y);
      forall a | Live(s'.ring, s'.blocks, a) ensures !In(s'.h.units, s'.blocks, a, y) {
        if a != b {
          assert Live(s.ring, s.blocks, a) && Size(s'.h, a) == Size(s.h, a);
        }
      }
    }
  }

  lemma RunLost(s: State, s': State, b: int, lo: int, hi: int)
    requires Lost(s, s', b) && FreeRun(s, lo, hi)
    requires forall y :: Covered(s'.h.units, s'.blocks, y) <==> Covered(s.h.units, s.blocks, y)
    ensures FreeRun(s', lo, hi)
  {
    hide Covered;
    forall y | lo <= y < hi ensures FreeAt(s', y) {
      assert FreeAt(s, y);
      forall a | Live(s'.ring, s'.blocks, a) ensures !In(s'.h.units, s'.blocks, a, y) {
        assert Live(s.ring, s.blocks, a) && Size(s'.h, a) == Size(s.h, a);
      }
    }
  }

  lemma RunReleased(x: Heap, x': Heap, base: int, held: map<int, nat>, held': map<int, nat>,
                    op: Op, out: Result, lo: int, hi: int)
    requires Holds(x, base, held) && Holds(x', base, held') && Follows(x, x', op, out) && op.Release?
    requires FreeRun(x.s, lo, hi)
    ensures FreeRun(x'.s, lo, hi)
  {
    hide Holds, FreeRun, Live, Lost;
    HoldsTidy(x, base, held);
    HoldsTidy(x', base, held');
    if Live(x.s.ring, x.s.blocks, op.ap - HDR) {
      RunLost(x.s, x'.s, op.ap - HDR, lo, hi);
    }
  }

  /** A request that gets memory from sbrk leaves all of it but the block free: at least
      4096 units less the block's. */
  lemma Reserve(x: Heap, x': Heap, base: int, held: map<int, nat>, held': map<int, nat>, op: Op, out: Result)
    requires Holds(x, base, held) && Holds(x', base, held') && Follows(x, x', op, out) && op.Request? && out.Block?
    requires AnsweredAs(x, held, op, out) && x'.mine != x.mine && op.nbytes <= KERNBASE - 16
    ensures FreeRun(x'.s, x.brk + op.grant, x.brk + op.grant + HDR * (4096 - Nunits(op.nbytes)))
  {
    hide Holds, Nunits, FreeRun, FreeAt, Tidy, Size, NoFit, CutFrom;
    var n: int := Nunits(op.nbytes);
    SmallRequest(op.nbytes);
    UnitsRange(op.nbytes);
    ExactCore(n);
    HoldsTidy(x', base, held');
    HoldsBelow(x, base, held);
    NewFree(x.s, x'.s, x.brk, out.ap - HDR, n, x.brk + op.grant);
    FreePart(x'.s, x.brk + op.grant, out.ap - HDR, x.brk + op.grant + HDR * (4096 - n));
  }

  lemma FreePart(s: State, lo: int, hi: int, mid: int)
    requires FreeRun(s, lo, hi) && mid <= hi
    ensures FreeRun(s, lo, mid)
  {
  }

  lemma HoldsBelow(x: Heap, base: int, held: map<int, nat>)
    requires Holds(x, base, held)
    ensures forall a :: Live(x.s.ring, x.s.blocks, a) ==> a in x.s.h.units && a + HDR * x.s.h.units[a] <= x.brk
  {
    hide Covered;
  }

  /** Bytes from p up to the block gained at the end are in no block that was live. */
  lemma NewFree(s: State, s': State, brk: int, b: int, n: int, p: int)
    requires Gained(s, s', b, n) && brk <= p
    requires forall a :: Live(s.ring, s.blocks, a) ==> a in s.h.units && a + HDR * s.h.units[a] <= brk
    requires forall y :: p <= y < b ==> Covered(s'.h.units, s'.blocks, y)
    ensures FreeRun(s', p, b)
  {
    hide Covered;
    forall y | p <= y < b ensures FreeAt(s', y) {
      forall a | Live(s'.ring, s'.blocks, a) ensures !In(s'.h.units, s'.blocks, a, y) {
        if a != b {
          assert Live(s.ring, s.blocks, a) && Size(s'.h, a) == Size(s.h, a);
        }
      }
    }
  }

  lemma {:induction false} ReserveLasts(base: int, ops: seq<Op>, outs: seq<Result>, past: seq<Heap>, k: nat, m: nat)
    requires History(base, ops, outs, past) && k < m <= |outs|
    requires ops[k].Request? && outs[k].Block? && past[k + 1].mine != past[k].mine
    requires ops[k].nbytes <= KERNBASE - 16 && Needs(ops, k, m) <= 4096
    ensures forall i :: k <= i < m && ops[i].Request? ==> outs[i].Block?
    ensures var lo := past[k].brk + ops[k].grant; FreeRun(past[m].s, lo, lo + HDR * (4096 - Needs(ops, k, m)))
  {
    hide Holds, Follows, AnsweredAs, Held, Nunits, FreeRun;
    var lo := past[k].brk + ops[k].grant;
    assert CallAt(ops, outs, past, m - 1);
    if m == k + 1 {
      Reserve(past[k], past[m], base, Held(ops, outs, k), Held(ops, outs, m), ops[k], outs[k]);
    } else {
      ReserveLasts(base, ops, outs, past, k, m - 1);
      var x, x', op, out := past[m - 1], past[m], ops[m - 1], outs[m - 1];
      if op.Request? {
        RunShrinks(x, x', base, Held(ops, outs, m - 1), Held(ops, outs, m), op, out, lo, 4096 - Needs(ops, k, m - 1));
      } else {
        RunReleased(x, x', base, Held(ops, outs, m - 1), Held(ops, outs, m), op, out, lo,
                    lo + HDR * (4096 - Needs(ops, k, m - 1)));
      }
    }
  }

  /** Once a request has got memory from sbrk, requests that need at most 4096 units in all
      (that one included) are met whatever sbrk does, with any frees between them. */
  lemma NeverRefused(base: int, ops: seq<Op>, outs: seq<Result>, past: seq<Heap>, k: nat, i: nat)
    requires History(base, ops, outs, past) && k < i < |outs|
    requires ops[k].Request? && outs[k].Block? && past[k + 1].mine != past[k].mine
    requires ops[k].nbytes <= KERNBASE - 16 && Needs(ops, k, i + 1) <= 4096 && ops[i].Request?
    ensures outs[i].Block?
  {
    ReserveLasts(base, ops, outs, past, k, i + 1);
  }

  /** The first request that is met gets memory from sbrk. */
  lemma FirstObtains(base: int, x: Heap, x': Heap, held': map<int, nat>, op: Op, out: Result)
    requires Holds(x, base, map[]) && x.mine == iset{} && Follows(x, x', op, out) && Holds(x', base, held')
    requires op.Request? && out.Block?
    ensures x'.mine != x.mine
  {
    hide Weak, NoTouch, NoFit, Nunits, CutFrom;
    UnitsRange(op.nbytes);
    var b := out.ap - HDR;
    assert Live(x'.s.ring, x'.s.blocks, b) && Size(x'.s.h, b) == Nunits(op.nbytes) >= 1;
    assert In(x'.s.h.units, x'.s.blocks, b, b);
    assert b in x'.mine;
  }
}
