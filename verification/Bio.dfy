/** The buffer cache (bio.c): NBUF buffers on a circular doubly linked list, most
    recently used first.  Buffers are named by their index in bcache.buf, and NBUF
    names bcache.head; `next` and `prev` are the link fields.  Each method is one
    atomic step (a section under bcache.lock, or work done while holding a buffer's
    sleep lock), so what every method keeps holds in every interleaving. */
module BufferCache {
  import opened Basics

  const NBUF := 30

  type Block = seq<int>
  datatype Key = Key(dev: int, blockno: int)
  datatype Buf = Buf(key: Key, valid: bool, dirty: bool, refcnt: int, locked: bool, data: Block)

  const UNUSED := Buf(Key(0, 0), false, false, 0, false, [])

  // ---------------------------------------------------------------- the list

  /** The list hanging off the head is `order`, linked both ways and closed. */
  predicate Ring(next: seq<int>, prev: seq<int>, order: seq<int>) {
    && |next| == |prev| == NBUF + 1
    && Distinct(order) && (forall i :: 0 <= i < |order| ==> 0 <= order[i] < NBUF)
    && next[NBUF] == (if |order| > 0 then order[0] else NBUF)
    && prev[NBUF] == (if |order| > 0 then order[|order| - 1] else NBUF)
    && (forall i {:trigger next[order[i]]} :: 0 <= i < |order| ==>
          next[order[i]] == if i + 1 < |order| then order[i + 1] else NBUF)
    && (forall i {:trigger prev[order[i]]} :: 0 <= i < |order| ==>
          prev[order[i]] == if i > 0 then order[i - 1] else NBUF)
  }

  lemma UnlinkRing(next: seq<int>, prev: seq<int>, order: seq<int>, k: nat)
    requires Ring(next, prev, order) && k < |order|
    ensures var b := order[k]; var r := order[..k] + order[k + 1..];
      && 0 <= prev[b] <= NBUF && 0 <= next[b] <= NBUF && b !in r
      && Ring(next[prev[b] := next[b]], prev[next[b] := prev[b]], r)
  {
    var r := order[..k] + order[k + 1..];
    forall i | 0 <= i < |r| ensures r[i] == order[if i < k then i else i + 1] {}
  }

  /** `order` with its k-th element moved to the front. */
  function ToFront(order: seq<int>, k: nat): (r: seq<int>)
    requires k < |order|
    ensures |r| == |order|
  {
    [order[k]] + (order[..k] + order[k + 1..])
  }

  /** The list holds all NBUF buffers, each once. */
  predicate Everyone(order: seq<int>) {
    |order| == NBUF && Distinct(order) && (forall i :: 0 <= i < NBUF ==> 0 <= order[i] < NBUF)
    && forall b :: 0 <= b < NBUF ==> b in order
  }

  lemma ToFrontEveryone(order: seq<int>, k: nat)
    requires k < |order| && Everyone(order)
    ensures Everyone(ToFront(order, k))
  {
    var r := ToFront(order, k);
    forall b | 0 <= b < NBUF
      ensures b in r
    {
      assert b in order;
      var i :| 0 <= i < |order| && order[i] == b;
      assert r[if i < k then i + 1 else if i == k then 0 else i] == b;
    }
  }

  // ---------------------------------------------------------------- contents

  function At(m: map<Key, Block>, k: Key): Block {
    if k in m then m[k] else []
  }

  /** What each block holds: `view` is the last contents given to it by anyone,
      `where` the buffer of each cached block, `touched` the buffers changed under
      their lock and neither logged nor written yet. */
  datatype Spec = Spec(view: map<Key, Block>, where: map<Key, int>, touched: set<int>)

  predicate BufOk(b: Buf, i: int, disk: map<Key, Block>, sp: Spec) {
    && b.refcnt >= 0
    && (b.locked ==> b.refcnt >= 1)
    && (b.dirty ==> b.valid)
    && (i in sp.touched ==> b.locked && b.valid)
    && if b.key.dev == 0 then !b.valid && b.refcnt == 0
       else
         && b.key in sp.where && sp.where[b.key] == i
         && (b.valid ==> b.data == At(sp.view, b.key))
         && (!b.dirty && i !in sp.touched ==> At(sp.view, b.key) == At(disk, b.key))
  }

  /** Each block has at most one buffer, and a block with none is on disk in its last
      version. */
  ghost predicate CacheOk(bufs: seq<Buf>, disk: map<Key, Block>, sp: Spec) {
    && |bufs| == NBUF
    && (forall i :: 0 <= i < NBUF ==> BufOk(bufs[i], i, disk, sp))
    && (forall k :: k in sp.where ==> 0 <= sp.where[k] < NBUF && bufs[sp.where[k]].key == k && k.dev != 0)
    && (forall k :: k !in sp.where ==> At(sp.view, k) == At(disk, k))
  }

  /** Stated without `where`: no two buffers hold the same block. */
  lemma OneBufferPerBlock(bufs: seq<Buf>, disk: map<Key, Block>, sp: Spec, i: nat, j: nat)
    requires CacheOk(bufs, disk, sp) && i < NBUF && j < NBUF
    requires bufs[i].key == bufs[j].key && bufs[i].key.dev != 0
    ensures i == j
  {
    assert BufOk(bufs[i], i, disk, sp) && BufOk(bufs[j], j, disk, sp);
  }

  /** The buffer b relabelled for block `key`, with no flags and one reference. */
  function Relabelled(b: Buf, key: Key): Buf {
    b.(key := key, valid := false, dirty := false, refcnt := 1)
  }

  function Moved(sp: Spec, from: Key, to: Key, i: int): Spec {
    sp.(where := (sp.where - {from})[to := i])
  }

  lemma Counted(bufs: seq<Buf>, disk: map<Key, Block>, sp: Spec, b: nat, n: nat)
    requires CacheOk(bufs, disk, sp) && b < NBUF
    requires (bufs[b].key.dev == 0 ==> n == 0) && (bufs[b].locked ==> n >= 1)
    ensures CacheOk(bufs[b := bufs[b].(refcnt := n)], disk, sp)
  {
    assert BufOk(bufs[b], b, disk, sp);
  }

  lemma OtherBuf(x: Buf, i: int, disk: map<Key, Block>, sp: Spec, key: Key, b: int, data: Block)
    requires BufOk(x, i, disk, sp) && i != b && key in sp.where && sp.where[key] == b && key.dev != 0
    ensures BufOk(x, i, disk, sp.(view := sp.view[key := data], touched := sp.touched + {b}))
  {
  }

  lemma Changed(bufs: seq<Buf>, disk: map<Key, Block>, sp: Spec, b: nat, data: Block)
    requires CacheOk(bufs, disk, sp) && b < NBUF && bufs[b].locked && bufs[b].valid
    ensures |bufs| == NBUF
    ensures CacheOk(bufs[b := bufs[b].(data := data)], disk,
                    sp.(view := sp.view[bufs[b].key := data], touched := sp.touched + {b}))
  {
    var sp' := sp.(view := sp.view[bufs[b].key := data], touched := sp.touched + {b});
    assert BufOk(bufs[b], b, disk, sp);
    forall i | 0 <= i < NBUF && i != b
      ensures BufOk(bufs[i], i, disk, sp')
    {
      OtherBuf(bufs[i], i, disk, sp, bufs[b].key, b, data);
    }
  }

  lemma Written(bufs: seq<Buf>, disk: map<Key, Block>, sp: Spec, b: nat)
    requires CacheOk(bufs, disk, sp) && b < NBUF && bufs[b].locked && bufs[b].valid
    ensures |bufs| == NBUF
    ensures CacheOk(bufs[b := bufs[b].(dirty := false)], disk[bufs[b].key := bufs[b].data],
                    sp.(touched := sp.touched - {b}))
  {
    var disk' := disk[bufs[b].key := bufs[b].data];
    assert BufOk(bufs[b], b, disk, sp);
    forall i | 0 <= i < NBUF && i != b
      ensures BufOk(bufs[i], i, disk', sp.(touched := sp.touched - {b}))
    {
      assert BufOk(bufs[i], i, disk, sp);
    }
  }

  /** Recycling loses nothing: a buffer nobody references and no transaction has
      pinned agrees with the disk. */
  lemma Recycle(bufs: seq<Buf>, disk: map<Key, Block>, sp: Spec, b: nat, key: Key)
    requires CacheOk(bufs, disk, sp) && b < NBUF && bufs[b].refcnt == 0 && !bufs[b].dirty
    requires key.dev != 0 && forall i :: 0 <= i < NBUF ==> bufs[i].key != key
    ensures CacheOk(bufs[b := Relabelled(bufs[b], key)], disk, Moved(sp, bufs[b].key, key, b))
  {
    var sp' := Moved(sp, bufs[b].key, key, b);
    assert BufOk(bufs[b], b, disk, sp);
    assert key !in sp.where;
    forall i | 0 <= i < NBUF && i != b
      ensures BufOk(bufs[i], i, disk, sp')
    {
      assert BufOk(bufs[i], i, disk, sp) && (bufs[i].key.dev != 0 ==> bufs[i].key != bufs[b].key);
    }
    hide BufOk;
  }

  // ---------------------------------------------------------------- traces

  datatype Event =
    | Get(key: Key) | Take(b: int) | Read(b: int) | Change(b: int, data: Block)
    | Log(b: int) | Write(b: int) | Release(b: int) | Drop(b: int)

  /** What processes saw and did: block contents read, block contents given. */
  datatype Act = Got(key: Key, data: Block) | Put(key: Key, data: Block)

  function Last(view: map<Key, Block>, acts: seq<Act>): map<Key, Block>
    decreases |acts|
  {
    if acts == [] then view
    else
      var v, a := Last(view, acts[..|acts| - 1]), acts[|acts| - 1];
      if a.Put? then v[a.key := a.data] else v
  }

  ghost predicate Coherent(view: map<Key, Block>, acts: seq<Act>) {
    forall n :: 0 <= n < |acts| && acts[n].Got? ==> acts[n].data == At(Last(view, acts[..n]), acts[n].key)
  }

  lemma NoActs(view: map<Key, Block>)
    ensures Coherent(view, []) && Last(view, []) == view
  {
  }

  lemma {:induction false} LastAppend(view: map<Key, Block>, a: seq<Act>, b: seq<Act>)
    ensures Last(view, a + b) == Last(Last(view, a), b)
    decreases |b|
  {
    if b == [] {
      assert a + b == a;
    } else {
      assert (a + b)[..|a + b| - 1] == a + b[..|b| - 1];
      LastAppend(view, a, b[..|b| - 1]);
    }
  }

  lemma MoreActs(view: map<Key, Block>, a: seq<Act>, b: seq<Act>)
    requires Coherent(view, a) && Coherent(Last(view, a), b)
    ensures Coherent(view, a + b) && Last(view, a + b) == Last(Last(view, a), b)
  {
    hide Last, At;
    LastAppend(view, a, b);
    forall n | 0 <= n < |a + b| && (a + b)[n].Got?
      ensures (a + b)[n].data == At(Last(view, (a + b)[..n]), (a + b)[n].key)
    {
      if n < |a| {
        assert (a + b)[..n] == a[..n] && (a + b)[n] == a[n];
      } else {
        assert (a + b)[..n] == a + b[..n - |a|] && (a + b)[n] == b[n - |a|];
        LastAppend(view, a, b[..n - |a|]);
      }
    }
  }

  // ---------------------------------------------------------------- the steps

  predicate Free(b: Buf) {
    b.refcnt == 0 && !b.dirty
  }

  predicate Shaped(bufs: seq<Buf>, order: seq<int>) {
    |bufs| == NBUF && Everyone(order)
  }

  /** The first buffer from place i of the list that holds the block, or -1. */
  function FindFrom(bufs: seq<Buf>, order: seq<int>, key: Key, i: nat): int
    requires Shaped(bufs, order) && i <= NBUF
    decreases NBUF - i
  {
    if i == NBUF then -1 else if bufs[order[i]].key == key then order[i] else FindFrom(bufs, order, key, i + 1)
  }

  /** The last place before k of the list with a buffer that may be recycled, or -1. */
  function VictimBelow(bufs: seq<Buf>, order: seq<int>, k: nat): (r: int)
    requires Shaped(bufs, order) && k <= NBUF
    ensures r == -1 || (0 <= r < k && Free(bufs[order[r]]))
  {
    if k == 0 then -1 else if Free(bufs[order[k - 1]]) then k - 1 else VictimBelow(bufs, order, k - 1)
  }

  /** Where b is in the list. */
  function PlaceBelow(order: seq<int>, b: int, k: nat): (r: nat)
    requires k <= |order| && b in order[..k]
    ensures r < k && order[r] == b
  {
    if order[k - 1] == b then k - 1 else PlaceBelow(order, b, k - 1)
  }

  /** A cache as a value: buffers, list, disk, and what it stands for. */
  datatype Cache = Cache(bufs: seq<Buf>, order: seq<int>, disk: map<Key, Block>, sp: Spec)

  function SetBuf(c: Cache, b: nat, x: Buf): Cache
    requires b < |c.bufs|
  {
    c.(bufs := c.bufs[b := x])
  }

  /** bget. */
  function GetSpec(c: Cache, key: Key): Cache
    requires Shaped(c.bufs, c.order)
  {
    var b := FindFrom(c.bufs, c.order, key, 0);
    if 0 <= b < NBUF then SetBuf(c, b, c.bufs[b].(refcnt := c.bufs[b].refcnt + 1))
    else
      var k := VictimBelow(c.bufs, c.order, NBUF);
      if k == -1 then c
      else
        var v := c.order[k];
        SetBuf(c, v, Relabelled(c.bufs[v], key)).(sp := Moved(c.sp, c.bufs[v].key, key, v))
  }

  /** The second half of brelse. */
  function DropSpec(c: Cache, b: nat): Cache
    requires Shaped(c.bufs, c.order) && b < NBUF
  {
    var d := SetBuf(c, b, c.bufs[b].(refcnt := c.bufs[b].refcnt - 1));
    if d.bufs[b].refcnt == 0
    then assert c.order[..NBUF] == c.order; d.(order := ToFront(c.order, PlaceBelow(c.order, b, NBUF)))
    else d
  }

  predicate Held(c: Cache, b: int) {
    0 <= b < |c.bufs| && c.bufs[b].locked
  }

  predicate HeldValid(c: Cache, b: int) {
    Held(c, b) && c.bufs[b].valid
  }

  /** One step of some process: bget, taking a buffer's lock, the rest of bread, a change
      under the lock, log_write, bwrite, and the two halves of brelse. A step that the
      code's own rules forbid at this point (using a buffer without its lock, releasing
      one changed and neither logged nor written) does nothing. */
  function Next(c: Cache, e: Event): Cache
    requires Shaped(c.bufs, c.order)
  {
    match e
    case Get(key) => if key.dev != 0 then GetSpec(c, key) else c
    case Take(b) =>
      if 0 <= b < NBUF && c.bufs[b].refcnt >= 1 && !c.bufs[b].locked
      then SetBuf(c, b, c.bufs[b].(locked := true)) else c
    case Read(b) =>
      if Held(c, b) && c.bufs[b].key.dev != 0
      then SetBuf(c, b, c.bufs[b].(valid := true, data := At(c.sp.view, c.bufs[b].key))) else c
    case Change(b, data) =>
      if HeldValid(c, b)
      then SetBuf(c, b, c.bufs[b].(data := data)).(
             sp := c.sp.(view := c.sp.view[c.bufs[b].key := data], touched := c.sp.touched + {b}))
      else c
    case Log(b) =>
      if HeldValid(c, b)
      then SetBuf(c, b, c.bufs[b].(dirty := true)).(sp := c.sp.(touched := c.sp.touched - {b})) else c
    case Write(b) =>
      if HeldValid(c, b)
      then SetBuf(c, b, c.bufs[b].(dirty := false)).(
             disk := c.disk[c.bufs[b].key := c.bufs[b].data], sp := c.sp.(touched := c.sp.touched - {b}))
      else c
    case Release(b) =>
      if Held(c, b) && b !in c.sp.touched then SetBuf(c, b, c.bufs[b].(locked := false)) else c
    case Drop(b) =>
      if 0 <= b < NBUF && c.bufs[b].refcnt >= 1 && (c.bufs[b].locked ==> c.bufs[b].refcnt >= 2)
      then DropSpec(c, b) else c
  }

  /** What the step lets a process see or do: a bread of a held buffer returns the last
      contents given to its block, and nothing else returns contents. */
  function ActsOf(c: Cache, e: Event): seq<Act> {
    match e
    case Read(b) =>
      if Held(c, b) && c.bufs[b].key.dev != 0 then [Got(c.bufs[b].key, At(c.sp.view, c.bufs[b].key))] else []
    case Change(b, data) => if HeldValid(c, b) then [Put(c.bufs[b].key, data)] else []
    case _ => []
  }

  lemma NextShaped(c: Cache, e: Event)
    requires Shaped(c.bufs, c.order)
    ensures Shaped(Next(c, e).bufs, Next(c, e).order)
  {
    if e.Drop? && 0 <= e.b < NBUF {
      InOrder(c.order, e.b);
      ToFrontEveryone(c.order, PlaceBelow(c.order, e.b, NBUF));
    }
  }

  lemma InOrder(order: seq<int>, b: int)
    requires Everyone(order) && 0 <= b < NBUF
    ensures |order| == NBUF && b in order[..NBUF] && order[..NBUF] == order
  {
    assert order[..NBUF] == order;
  }

  /** The cache after the first n events. */
  function After(c: Cache, es: seq<Event>, n: nat): (r: Cache)
    requires Shaped(c.bufs, c.order) && n <= |es|
    ensures Shaped(r.bufs, r.order)
  {
    if n == 0 then c
    else
      NextShaped(After(c, es, n - 1), es[n - 1]);
      Next(After(c, es, n - 1), es[n - 1])
  }

  /** What all processes saw and did in the first n events. */
  function TraceOf(c: Cache, es: seq<Event>, n: nat): seq<Act>
    requires Shaped(c.bufs, c.order) && n <= |es|
  {
    if n == 0 then [] else TraceOf(c, es, n - 1) + ActsOf(After(c, es, n - 1), es[n - 1])
  }

  /** The contents a trace leaves are those the cache stands for, and each read in it
      returns the last contents given to its block. */
  lemma StepCoherent(c: Cache, e: Event)
    requires Shaped(c.bufs, c.order)
    ensures Coherent(c.sp.view, ActsOf(c, e)) && Next(c, e).sp.view == Last(c.sp.view, ActsOf(c, e))
  {
  }

  /** Every run of the steps is coherent. */
  lemma {:induction false} RunCoherent(c: Cache, es: seq<Event>, n: nat)
    requires Shaped(c.bufs, c.order) && n <= |es|
    ensures Coherent(c.sp.view, TraceOf(c, es, n)) && After(c, es, n).sp.view == Last(c.sp.view, TraceOf(c, es, n))
  {
    hide Coherent, Last, Next, ActsOf, Shaped;
    if n == 0 {
      NoActs(c.sp.view);
    } else {
      RunCoherent(c, es, n - 1);
      StepCoherent(After(c, es, n - 1), es[n - 1]);
      MoreActs(c.sp.view, TraceOf(c, es, n - 1), ActsOf(After(c, es, n - 1), es[n - 1]));
    }
  }

  // ---------------------------------------------------------------- least recently used

  /** The buffer whose last reference the step gives up, or -1. */
  function Released(c: Cache, e: Event): int {
    if e.Drop? && 0 <= e.b < |c.bufs| && c.bufs[e.b].refcnt == 1 && !c.bufs[e.b].locked then e.b else -1
  }

  /** The last of the first n steps that left buffer b without references, or -1. */
  function LastRelease(c: Cache, es: seq<Event>, n: nat, b: int): int
    requires Shaped(c.bufs, c.order) && n <= |es|
  {
    if n == 0 then -1
    else if b >= 0 && Released(After(c, es, n - 1), es[n - 1]) == b then n - 1
    else LastRelease(c, es, n - 1, b)
  }

  lemma {:induction false} ReleaseBefore(c: Cache, es: seq<Event>, n: nat, b: int)
    requires Shaped(c.bufs, c.order) && n <= |es|
    ensures LastRelease(c, es, n, b) < n
  {
    hide Shaped, Released;
    if n == 0 {
    } else {
      ReleaseBefore(c, es, n - 1, b);
    }
  }

  /** Only the buffer given up moves, to the front. */
  lemma StepOrder(c: Cache, e: Event)
    requires Shaped(c.bufs, c.order)
    ensures var r, order := Released(c, e), Next(c, e).order;
      && -1 <= r < NBUF
      && (r == -1 ==> order == c.order)
      && (r != -1 ==> r in c.order && exists k :: 0 <= k < NBUF && c.order[k] == r && order == ToFront(c.order, k))
  {
    if Released(c, e) != -1 {
      InOrder(c.order, e.b);
      var k := PlaceBelow(c.order, e.b, NBUF);
      assert Next(c, e).order == ToFront(c.order, k);
    }
  }

  /** Buffer x went without references after buffer y did, or neither ever did. */
  predicate Later(c: Cache, es: seq<Event>, n: nat, x: int, y: int)
    requires Shaped(c.bufs, c.order) && n <= |es|
  {
    LastRelease(c, es, n, x) > LastRelease(c, es, n, y) || LastRelease(c, es, n, x) == LastRelease(c, es, n, y) == -1
  }

  predicate ByRelease(c: Cache, es: seq<Event>, n: nat, order: seq<int>)
    requires Shaped(c.bufs, c.order) && n <= |es|
  {
    forall i, j :: 0 <= i < j < |order| ==> Later(c, es, n, order[i], order[j])
  }

  /** In every run the list is in the order in which the buffers last went without
      references, the latest first. */
  lemma {:induction false} Recency(c: Cache, es: seq<Event>, n: nat)
    requires Shaped(c.bufs, c.order) && n <= |es|
    ensures ByRelease(c, es, n, After(c, es, n).order)
  {
    hide Shaped, Released, Next, ToFront;
    if n == 0 {
    } else {
      Recency(c, es, n - 1);
      StepOrder(After(c, es, n - 1), es[n - 1]);
      RecencyStep(c, es, n);
    }
  }

  lemma StillLater(c: Cache, es: seq<Event>, n: nat, x: int, y: int)
    requires Shaped(c.bufs, c.order) && 0 < n <= |es|
    ensures var r := Released(After(c, es, n - 1), es[n - 1]);
      && (r != x && r != y && Later(c, es, n - 1, x, y) ==> Later(c, es, n, x, y))
      && (r == x && x >= 0 && x != y ==> Later(c, es, n, x, y))
  {
    hide Released, Next, Shaped;
    ReleaseBefore(c, es, n - 1, y);
  }

  lemma FrontPlace(order: seq<int>, k: nat, i: nat)
    requires Everyone(order) && k < NBUF && 0 < i < NBUF
    ensures var i' := if i <= k then i - 1 else i; ToFront(order, k)[i] == order[i'] && order[i'] != order[k]
    ensures ToFront(order, k)[0] == order[k]
  {
  }

  lemma RecencyStep(c: Cache, es: seq<Event>, n: nat)
    requires Shaped(c.bufs, c.order) && 0 < n <= |es| && ByRelease(c, es, n - 1, After(c, es, n - 1).order)
    ensures ByRelease(c, es, n, After(c, es, n).order)
  {
    hide Released, Next, Later, LastRelease;
    forall i, j | 0 <= i < j < NBUF ensures Later(c, es, n, After(c, es, n).order[i], After(c, es, n).order[j]) {
      RecencyAt(c, es, n, i, j);
    }
  }

  lemma RecencyAt(c: Cache, es: seq<Event>, n: nat, i: nat, j: nat)
    requires Shaped(c.bufs, c.order) && 0 < n <= |es| && ByRelease(c, es, n - 1, After(c, es, n - 1).order)
    requires i < j < NBUF
    ensures var order := After(c, es, n).order; Later(c, es, n, order[i], order[j])
  {
    hide Released, Next, Later, LastRelease, ToFront, Distinct;
    var d, e, order := After(c, es, n - 1), es[n - 1], After(c, es, n).order;
    StepOrder(d, e);
    StillLater(c, es, n, order[i], order[j]);
    if Released(d, e) != -1 {
      var k :| 0 <= k < NBUF && d.order[k] == Released(d, e) && order == ToFront(d.order, k);
      FrontPlace(d.order, k, j);
      if i > 0 {
        FrontPlace(d.order, k, i);
        assert Later(c, es, n - 1, d.order[if i <= k then i - 1 else i], d.order[if j <= k then j - 1 else j]);
      }
    }
  }

  lemma {:induction false} VictimLast(bufs: seq<Buf>, order: seq<int>, k: nat, i: nat)
    requires Shaped(bufs, order) && i < k <= NBUF && Free(bufs[order[i]])
    ensures i <= VictimBelow(bufs, order, k)
  {
    hide Everyone;
    if i == k - 1 {
    } else {
      VictimLast(bufs, order, k - 1, i);
    }
  }

  /** bget recycles the least recently used: in every run, any other buffer it could have
      taken went without references later, or neither was ever used. */
  lemma LeastRecent(c: Cache, es: seq<Event>, n: nat, x: int)
    requires Shaped(c.bufs, c.order) && n <= |es| && 0 <= x < NBUF && Free(After(c, es, n).bufs[x])
    ensures var d := After(c, es, n); var k := VictimBelow(d.bufs, d.order, NBUF);
      0 <= k < NBUF && (x == d.order[k] || Later(c, es, n, x, d.order[k]))
  {
    hide Later, Next, Free, VictimBelow;
    Recency(c, es, n);
    var d := After(c, es, n);
    InOrder(d.order, x);
    var i := PlaceBelow(d.order, x, NBUF);
    VictimLast(d.bufs, d.order, NBUF, i);
    VictimRange(d.bufs, d.order);
  }

  lemma VictimRange(bufs: seq<Buf>, order: seq<int>)
    requires Shaped(bufs, order)
    ensures -1 <= VictimBelow(bufs, order, NBUF) < NBUF
  {
  }

  lemma {:induction false} FindsKey(bufs: seq<Buf>, order: seq<int>, key: Key, i: nat, j: nat)
    requires Shaped(bufs, order) && i <= j < NBUF && bufs[order[j]].key == key
    ensures var b := FindFrom(bufs, order, key, i); 0 <= b < NBUF && bufs[b].key == key
    decreases j - i
  {
    if bufs[order[i]].key == key {
    } else {
      FindsKey(bufs, order, key, i + 1, j);
    }
  }

  /** bget of a block that is cached, or for which some buffer can be recycled, leaves it
      with a referenced buffer. */
  lemma GetEffect(c: Cache, key: Key, x: nat)
    requires Shaped(c.bufs, c.order) && CacheOk(c.bufs, c.disk, c.sp) && key.dev != 0 && x < NBUF
    requires c.bufs[x].key == key || Free(c.bufs[x])
    ensures exists b :: 0 <= b < NBUF && var y := Next(c, Get(key)).bufs[b]; y.key == key && y.refcnt >= 1
  {
    hide CacheOk, VictimBelow;
    InOrder(c.order, x);
    var i := PlaceBelow(c.order, x, NBUF);
    var b := FindFrom(c.bufs, c.order, key, 0);
    if c.bufs[x].key == key {
      FindsKey(c.bufs, c.order, key, 0, i);
    }
    if 0 <= b < NBUF {
      FindsOnly(c.bufs, c.order, key, 0);
      Counts(c, b);
      assert Next(c, Get(key)).bufs[b].key == key;
    } else {
      VictimLast(c.bufs, c.order, NBUF, i);
      VictimRange(c.bufs, c.order);
      var v := c.order[VictimBelow(c.bufs, c.order, NBUF)];
      assert Next(c, Get(key)).bufs[v].key == key;
    }
  }

  lemma {:induction false} FindsOnly(bufs: seq<Buf>, order: seq<int>, key: Key, i: nat)
    requires Shaped(bufs, order) && i <= NBUF
    ensures var b := FindFrom(bufs, order, key, i); 0 <= b < NBUF ==> bufs[b].key == key
    decreases NBUF - i
  {
    if i == NBUF || bufs[order[i]].key == key {
    } else {
      FindsOnly(bufs, order, key, i + 1);
    }
  }

  lemma Counts(c: Cache, b: nat)
    requires CacheOk(c.bufs, c.disk, c.sp) && b < NBUF
    ensures |c.bufs| == NBUF && c.bufs[b].refcnt >= 0
  {
    assert BufOk(c.bufs[b], b, c.disk, c.sp);
  }

  /** Every step that the rules allow takes effect: a change and a read happen, a write
      reaches the disk, a lock is taken and given back, a reference is dropped. */
  lemma Effects(c: Cache, b: nat, data: Block)
    requires Shaped(c.bufs, c.order) && CacheOk(c.bufs, c.disk, c.sp) && b < NBUF
    ensures HeldValid(c, b) ==>
      && ActsOf(c, Change(b, data)) == [Put(c.bufs[b].key, data)]
      && At(Next(c, Write(b)).disk, c.bufs[b].key) == At(c.sp.view, c.bufs[b].key)
      && Next(c, Log(b)).bufs[b].dirty
    ensures Held(c, b) ==> ActsOf(c, Read(b)) == [Got(c.bufs[b].key, At(c.sp.view, c.bufs[b].key))]
    ensures Held(c, b) && b !in c.sp.touched ==> !Next(c, Release(b)).bufs[b].locked
    ensures !Held(c, b) && c.bufs[b].refcnt >= 1 ==>
      Held(Next(c, Take(b)), b) && Next(c, Drop(b)).bufs[b].refcnt == c.bufs[b].refcnt - 1
  {
    assert BufOk(c.bufs[b], b, c.disk, c.sp);
  }

  class Bcache {
    var bufs: seq<Buf>
    var next: seq<int>
    var prev: seq<int>
    var disk: map<Key, Block>
    /** The list, most recently used first. */
    ghost var order: seq<int>
    ghost var sp: Spec

    ghost predicate Valid()
      reads this
    {
      Ring(next, prev, order) && Everyone(order) && CacheOk(bufs, disk, sp)
    }

    /** This cache as a value. */
    ghost function Value(): Cache
      reads this
    {
      Cache(bufs, order, disk, sp)
    }

    /** binit: the list holds the buffers, the last one first. */
    constructor (image: map<Key, Block>)
      ensures Valid() && disk == image && sp == Spec(image, map[], {})
      ensures forall i :: 0 <= i < NBUF ==> order[i] == NBUF - 1 - i
    {
      bufs := seq(NBUF, _ => UNUSED);
      next, prev, order := seq(NBUF + 1, _ => NBUF), seq(NBUF + 1, _ => NBUF), [];
      disk, sp := image, Spec(image, map[], {});
      new;
      var b := 0;
      while b < NBUF
        invariant 0 <= b <= NBUF && Ring(next, prev, order) && |order| == b
        invariant forall i :: 0 <= i < b ==> order[i] == b - 1 - i
        modifies this`next, this`prev, this`order
      {
        LinkFront(b);
        b := b + 1;
      }
      forall c | 0 <= c < NBUF
        ensures c in order
      {
        assert order[NBUF - 1 - c] == c;
      }
    }

    /** b->next = head.next; b->prev = head; head.next->prev = b; head.next = b. */
    method LinkFront(b: int)
      requires Ring(next, prev, order) && 0 <= b < NBUF && b !in order
      modifies this`next, this`prev, this`order
      ensures Ring(next, prev, order) && order == [b] + old(order)
    {
      next := next[b := next[NBUF]];
      prev := prev[b := NBUF];
      prev := prev[next[NBUF] := b];
      next := next[NBUF := b];
      order := [b] + order;
    }

    /** b->next->prev = b->prev; b->prev->next = b->next. */
    method Unlink(b: int, ghost k: nat)
      requires Ring(next, prev, order) && k < |order| && order[k] == b
      modifies this`next, this`prev, this`order
      ensures Ring(next, prev, order) && order == old(order)[..k] + old(order)[k + 1..] && b !in order
    {
      UnlinkRing(next, prev, order, k);
      prev := prev[next[b] := prev[b]];
      next := next[prev[b] := next[b]];
      order := order[..k] + order[k + 1..];
    }

    /** The forward scan of bget; -1 if the block has no buffer. */
    method FindBuf(key: Key) returns (b: int)
      requires Valid()
      ensures b == -1 ==> forall i :: 0 <= i < NBUF ==> bufs[i].key != key
      ensures b != -1 ==> 0 <= b < NBUF && bufs[b].key == key
      ensures b == FindFrom(bufs, order, key, 0)
    {
      hide CacheOk;
      Slots();
      b := next[NBUF];
      ghost var i := 0;
      while b != NBUF
        invariant 0 <= i <= NBUF && b == if i < NBUF then order[i] else NBUF
        invariant forall j :: 0 <= j < i ==> bufs[order[j]].key != key
        invariant FindFrom(bufs, order, key, 0) == FindFrom(bufs, order, key, i)
        decreases NBUF - i
      {
        if bufs[b].key == key {
          return;
        }
        b, i := next[b], i + 1;
      }
      forall c | 0 <= c < NBUF
        ensures bufs[c].key != key
      {
        assert c in order;
      }
      return -1;
    }

    /** The backward scan of bget: the least recently used buffer that may be
        recycled; -1 if there is none. */
    method FindVictim() returns (b: int, ghost k: int)
      requires Valid()
      ensures b == -1 ==> forall i :: 0 <= i < NBUF ==> !Free(bufs[i])
      ensures b != -1 ==>
        && 0 <= k < NBUF && order[k] == b && 0 <= b < NBUF && Free(bufs[b])
        && forall i :: k < i < NBUF ==> !Free(bufs[order[i]])
      ensures k == VictimBelow(bufs, order, NBUF) && (b == -1 <==> k == -1)
    {
      hide CacheOk;
      Slots();
      b := prev[NBUF];
      k := NBUF - 1;
      while b != NBUF
        invariant -1 <= k < NBUF && b == if k >= 0 then order[k] else NBUF
        invariant forall j :: k < j < NBUF ==> !Free(bufs[order[j]])
        invariant VictimBelow(bufs, order, NBUF) == VictimBelow(bufs, order, k + 1)
        decreases k
      {
        if bufs[b].refcnt == 0 && !bufs[b].dirty {
          return;
        }
        b, k := prev[b], k - 1;
      }
      forall c | 0 <= c < NBUF
        ensures !Free(bufs[c])
      {
        assert c in order;
      }
      return -1, k;
    }

    /** bget under bcache.lock: the block's buffer if it has one; otherwise the least
        recently used buffer that is neither referenced nor dirty, relabelled; -1 is
        the panic "no buffers".  No block's contents change. */
    method Bget(key: Key) returns (b: int, ghost k: int)
      requires Valid() && key.dev != 0
      modifies this`bufs, this`sp
      ensures Valid() && Shaped(old(bufs), order) && Value() == GetSpec(old(Value()), key)
      ensures sp.view == old(sp).view && sp.touched == old(sp).touched
      ensures b == -1 ==> bufs == old(bufs) && sp == old(sp)
      ensures b == -1 <==> forall i :: 0 <= i < NBUF ==> old(bufs)[i].key != key && !Free(old(bufs)[i])
      ensures b != -1 ==>
        && 0 <= b < NBUF && var o := old(bufs)[b];
        if o.key == key then bufs == old(bufs)[b := o.(refcnt := o.refcnt + 1)]
        else
          && (forall i :: 0 <= i < NBUF ==> old(bufs)[i].key != key)
          && bufs == old(bufs)[b := Relabelled(o, key)]
          && 0 <= k < NBUF && order[k] == b && o.refcnt == 0 && !o.dirty
          && (forall i :: k < i < NBUF ==> !Free(old(bufs)[order[i]]))
    {
      hide Ring, Everyone, CacheOk, FindFrom, VictimBelow;
      Slots();
      b := FindBuf(key);
      k := -1;
      if b != -1 {
        Positive(b);
        Counted(bufs, disk, sp, b, bufs[b].refcnt + 1);
        bufs := bufs[b := bufs[b].(refcnt := bufs[b].refcnt + 1)];
        return;
      }
      b, k := FindVictim();
      if b != -1 {
        Recycle(bufs, disk, sp, b, key);
        sp := Moved(sp, bufs[b].key, key, b);
        bufs := bufs[b := bufs[b].(key := key, valid := false, dirty := false, refcnt := 1)];
      }
    }

    /** acquiresleep(&b->lock), taken when the lock is free. */
    method Lock(b: int)
      requires Valid() && 0 <= b < NBUF && bufs[b].refcnt >= 1 && !bufs[b].locked
      modifies this`bufs
      ensures Valid() && bufs == old(bufs)[b := old(bufs)[b].(locked := true)]
    {
      bufs := bufs[b := bufs[b].(locked := true)];
    }

    /** The rest of bread, holding the buffer: read the disk unless B_VALID.  The
        caller gets the last contents of the block. */
    method Fill(b: int)
      requires Valid() && 0 <= b < NBUF && bufs[b].locked && bufs[b].key.dev != 0
      modifies this`bufs
      ensures Valid() && bufs == old(bufs)[b := old(bufs)[b].(valid := true, data := At(sp.view, bufs[b].key))]
    {
      assert BufOk(bufs[b], b, disk, sp);
      if !bufs[b].valid {
        bufs := bufs[b := bufs[b].(data := At(disk, bufs[b].key), valid := true)];
      }
    }

    /** The holder changes the buffer. */
    method Modify(b: int, data: Block)
      requires Valid() && 0 <= b < NBUF && bufs[b].locked && bufs[b].valid
      modifies this`bufs, this`sp
      ensures Valid() && bufs == old(bufs)[b := old(bufs)[b].(data := data)]
      ensures sp == old(sp).(view := old(sp).view[bufs[b].key := data], touched := old(sp).touched + {b})
    {
      hide Ring, Everyone, CacheOk;
      Changed(bufs, disk, sp, b, data);
      bufs := bufs[b := bufs[b].(data := data)];
      sp := sp.(view := sp.view[bufs[b].key := data], touched := sp.touched + {b});
    }

    /** log_write's B_DIRTY: the buffer is pinned until it is written. */
    method Pin(b: int)
      requires Valid() && 0 <= b < NBUF && bufs[b].locked && bufs[b].valid
      modifies this`bufs, this`sp
      ensures Valid() && bufs == old(bufs)[b := old(bufs)[b].(dirty := true)]
      ensures sp == old(sp).(touched := old(sp).touched - {b})
    {
      assert BufOk(bufs[b], b, disk, sp);
      bufs := bufs[b := bufs[b].(dirty := true)];
      sp := sp.(touched := sp.touched - {b});
    }

    /** bwrite: the disk block becomes the buffer's contents. */
    method Bwrite(b: int)
      requires Valid() && 0 <= b < NBUF && bufs[b].locked && bufs[b].valid
      modifies this`bufs, this`sp, this`disk
      ensures Valid() && bufs == old(bufs)[b := old(bufs)[b].(dirty := false)]
      ensures disk == old(disk)[bufs[b].key := bufs[b].data] && sp == old(sp).(touched := old(sp).touched - {b})
    {
      hide Ring, Everyone, CacheOk;
      Written(bufs, disk, sp, b);
      bufs := bufs[b := bufs[b].(dirty := true)];
      disk := disk[bufs[b].key := bufs[b].data];
      bufs := bufs[b := bufs[b].(dirty := false)];
      sp := sp.(touched := sp.touched - {b});
      assert bufs == old(bufs)[b := old(bufs)[b].(dirty := false)];
    }

    /** The first half of brelse: releasesleep(&b->lock). */
    method Unlock(b: int)
      requires Valid() && 0 <= b < NBUF && bufs[b].locked && b !in sp.touched
      modifies this`bufs
      ensures Valid() && bufs == old(bufs)[b := old(bufs)[b].(locked := false)]
    {
      bufs := bufs[b := bufs[b].(locked := false)];
    }

    /** The second half of brelse, under bcache.lock: drop the reference, and move an
        unreferenced buffer to the front of the list. */
    method Unref(b: int, ghost k: nat)
      requires Valid() && k < NBUF && order[k] == b
      requires bufs[b].refcnt >= 1 && (bufs[b].locked ==> bufs[b].refcnt >= 2)
      modifies this`bufs, this`next, this`prev, this`order
      ensures Valid() && bufs == old(bufs)[b := old(bufs)[b].(refcnt := old(bufs)[b].refcnt - 1)]
      ensures order == if bufs[b].refcnt == 0 then ToFront(old(order), k) else old(order)
    {
      hide Ring, CacheOk;
      Positive(b);
      Counted(bufs, disk, sp, b, bufs[b].refcnt - 1);
      bufs := bufs[b := bufs[b].(refcnt := bufs[b].refcnt - 1)];
      if bufs[b].refcnt == 0 {
        ToFrontEveryone(order, k);
        Unlink(b, k);
        LinkFront(b);
      }
    }

    /** Each step does to the cache what Next says, and shows a process what ActsOf says. */
    method Handle(e: Event, pending: set<int>) returns (pending': set<int>, acts: seq<Act>)
      requires Valid() && pending == sp.touched
      modifies this
      ensures Valid() && pending' == sp.touched && Shaped(old(bufs), old(order))
      ensures Value() == Next(old(Value()), e) && acts == ActsOf(old(Value()), e)
    {
      hide Ring, Everyone, CacheOk, GetSpec, FindFrom, VictimBelow;
      Slots();
      pending', acts := pending, [];
      match e
      case Get(key) =>
        if key.dev != 0 {
          var b, k := Bget(key);
        }
      case Take(b) =>
        if 0 <= b < NBUF && bufs[b].refcnt >= 1 && !bufs[b].locked {
          Lock(b);
        }
      case Read(b) =>
        if 0 <= b < NBUF && bufs[b].locked && bufs[b].key.dev != 0 {
          Fill(b);
          acts := [Got(bufs[b].key, bufs[b].data)];
        }
      case Change(b, data) =>
        if 0 <= b < NBUF && bufs[b].locked && bufs[b].valid {
          Modify(b, data);
          pending', acts := pending + {b}, [Put(bufs[b].key, data)];
        }
      case Log(b) =>
        if 0 <= b < NBUF && bufs[b].locked && bufs[b].valid {
          Pin(b);
          pending' := pending - {b};
        }
      case Write(b) =>
        if 0 <= b < NBUF && bufs[b].locked && bufs[b].valid {
          Bwrite(b);
          pending' := pending - {b};
        }
      case Release(b) =>
        if 0 <= b < NBUF && bufs[b].locked && b !in pending {
          Unlock(b);
        }
      case Drop(b) =>
        if 0 <= b < NBUF && bufs[b].refcnt >= 1 && (bufs[b].locked ==> bufs[b].refcnt >= 2) {
          InOrder(order, b);
          Unref(b, PlaceBelow(order, b, NBUF));
        }
    }

    lemma Positive(b: nat)
      requires Valid() && b < NBUF
      ensures |bufs| == NBUF && bufs[b].refcnt >= 0 && (bufs[b].key.dev == 0 ==> bufs[b].refcnt == 0)
    {
      assert BufOk(bufs[b], b, disk, sp);
    }

    lemma Slots()
      requires Valid()
      ensures |bufs| == NBUF && Shaped(bufs, order)
    {
    }

    /** The cache is coherent in every interleaving: each read returns the last contents
        given to its block, whoever gave them and wherever they are by now. */
    method Run(es: seq<Event>) returns (trace: seq<Act>)
      requires Valid() && sp.touched == {}
      modifies this
      ensures Valid() && Shaped(old(bufs), old(order))
      ensures Value() == After(old(Value()), es, |es|) && trace == TraceOf(old(Value()), es, |es|)
      ensures Coherent(old(sp.view), trace) && sp.view == Last(old(sp.view), trace)
    {
      hide Bcache.Valid, Last, Coherent, Next, ActsOf, Shaped;
      ghost var c := Value();
      Slots();
      trace := [];
      var i, pending := 0, {};
      while i < |es|
        invariant 0 <= i <= |es| && Valid() && pending == sp.touched
        invariant Value() == After(c, es, i) && trace == TraceOf(c, es, i)
      {
        var acts;
        pending, acts := Handle(es[i], pending);
        trace := trace + acts;
        i := i + 1;
      }
      RunCoherent(c, es, |es|);
    }
  }
}
