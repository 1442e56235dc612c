/** Block allocation and inode contents (fs.c), as a class over a volume. */
module Fs {
  import opened Basics
  import opened Volume

  const BPB := BSIZE * 8
  const IPB := 8
  const T_DEV := 3
  const MAXOPBLOCKS := 10
  const MAXCHUNK := ((MAXOPBLOCKS - 1 - 1 - 2) / 2) * BSIZE

  datatype Option<+T> = None | Some(value: T)

  function Max(a: int, b: int): int {
    if a < b then b else a
  }

  function Min(a: int, b: int): int {
    if a < b then a else b
  }

  /** What a read or write returns: a byte count, -1, a call handed to a device
      driver, or a kernel panic (after which nothing is promised). */
  datatype Outcome = Bytes(n: int) | Error | ToDevice | Panic

  /** `c` with the bytes from `off` on replaced, and extended if need be, by `s`. */
  function Splice(c: seq<byte>, off: nat, s: seq<byte>): (r: seq<byte>)
    requires off <= |c|
    ensures |r| == Max(|c|, off + |s|)
    ensures forall k :: 0 <= k < |r| ==> r[k] == if off <= k < off + |s| then s[k - off] else c[k]
  {
    c[..off] + s + if off + |s| < |c| then c[off + |s|..] else []
  }

  // ---------------------------------------------------------------- how many blocks a write needs

  /** The free blocks of a bit map. */
  function FreeCount(used: seq<bool>): (n: nat) {
    if used == [] then 0 else FreeCount(used[..|used| - 1]) + if used[|used| - 1] then 0 else 1
  }

  lemma {:induction false} FreeCountZero(used: seq<bool>)
    ensures FreeCount(used) == 0 <==> forall b :: 0 <= b < |used| ==> used[b]
  {
    if used == [] {
    } else {
      FreeCountZero(used[..|used| - 1]);
    }
  }

  lemma FreeCountGive(used: seq<bool>, b: nat)
    requires b < |used| && used[b]
    ensures FreeCount(used[b := false]) == FreeCount(used) + 1
  {
    FreeCountTake(used[b := false], b);
    assert used[b := false][b := true] == used;
  }

  lemma {:induction false} FreeCountTake(used: seq<bool>, b: nat)
    requires b < |used| && !used[b]
    ensures FreeCount(used[b := true]) == FreeCount(used) - 1
  {
    var n := |used| - 1;
    if b == n {
      assert used[b := true][..n] == used[..n];
    } else {
      FreeCountTake(used[..n], b);
      assert used[b := true][..n] == used[..n][b := true];
    }
  }

  /** What bmap must allocate for block bn of file i: the block itself, and the indirect
      block if it is missing too. */
  function Cost(v: Vol, i: int, bn: int): int {
    if Addr(v, i, bn) != 0 then 0 else if bn >= NDIRECT && At(v, Ptr(i, NDIRECT)) == 0 then 2 else 1
  }

  /** The blocks of file i in [lo, hi) that are not there. */
  function Missing(v: Vol, i: int, lo: int, hi: int): nat
    decreases hi - lo
  {
    if hi <= lo then 0 else Missing(v, i, lo, hi - 1) + if Addr(v, i, hi - 1) == 0 then 1 else 0
  }

  /** What a write to the blocks [lo, hi) of file i must allocate. */
  function Need(v: Vol, i: int, lo: int, hi: int): nat {
    Missing(v, i, lo, hi) + if lo < hi && NDIRECT < hi && At(v, Ptr(i, NDIRECT)) == 0 then 1 else 0
  }

  /** One past the last block that n bytes from `off` touch. */
  function EndBlock(off: nat, n: nat): nat {
    if n == 0 then off / BSIZE else (off + n - 1) / BSIZE + 1
  }

  /** No slot of another file names another block than before. */
  ghost predicate OthersKept(v: Vol, v': Vol, i: int) {
    forall s: Slot :: s.i != i ==> At(v', s) == At(v, s)
  }

  /** The blocks [lo, hi) of file i are there and nothing else about any block map changed. */
  ghost predicate Mapped(v: Vol, v': Vol, i: int, lo: int, hi: int) {
    && OthersKept(v, v', i)
    && (forall k :: lo <= k < hi ==> Addr(v', i, k) != 0)
    && (forall k :: k < lo || hi <= k ==> Addr(v', i, k) == Addr(v, i, k))
    && (hi <= lo || hi <= NDIRECT ==> At(v', Ptr(i, NDIRECT)) == At(v, Ptr(i, NDIRECT)))
  }

  lemma NeedAppend(v0: Vol, v: Vol, i: int, lo: int, c: int)
    requires Mapped(v0, v, i, lo, c) && 0 <= lo <= c
    ensures Need(v0, i, lo, c + 1) == Need(v0, i, lo, c) + Cost(v, i, c)
  {
    if lo < c && NDIRECT < c {
      assert Addr(v, i, c - 1) != 0;
    }
  }

  lemma {:induction false} NeedMonotone(v: Vol, i: int, lo: int, c: int, hi: int)
    requires lo <= c <= hi
    ensures Need(v, i, lo, c) <= Need(v, i, lo, hi)
    decreases hi - c
  {
    if c < hi {
      NeedMonotone(v, i, lo, c, hi - 1);
    }
  }

  lemma MappedStep(v0: Vol, v: Vol, v': Vol, i: int, lo: int, c: int)
    requires Mapped(v0, v, i, lo, c) && 0 <= lo <= c && Mapped(v, v', i, c, c + 1)
    ensures Mapped(v0, v', i, lo, c + 1)
  {
  }

  /** The write allocated the blocks [lo, hi) of file i as far as they were missing, and no
      other block. */
  ghost predicate Took(v0: Vol, v: Vol, i: int, lo: int, hi: int) {
    0 <= lo <= hi && Mapped(v0, v, i, lo, hi) && FreeCount(v.used) == FreeCount(v0.used) - Need(v0, i, lo, hi)
  }

  lemma TookNothing(v: Vol, i: int, lo: nat)
    ensures Took(v, v, i, lo, lo)
  {
  }

  lemma TookEnough(v0: Vol, v: Vol, i: int, lo: int, hi: int)
    requires Took(v0, v, i, lo, hi)
    ensures Need(v0, i, lo, hi) <= FreeCount(v0.used)
  {
  }

  lemma TookStep(v0: Vol, v1: Vol, v: Vol, i: int, lo: int, c: int, hi: int, ok: bool)
    requires Took(v0, v1, i, lo, c) && c < hi
    requires ok <==> Cost(v1, i, c) <= FreeCount(v1.used)
    requires ok ==> FreeCount(v.used) == FreeCount(v1.used) - Cost(v1, i, c) && Mapped(v1, v, i, c, c + 1)
    ensures ok ==> Took(v0, v, i, lo, c + 1)
    ensures !ok ==> Need(v0, i, lo, hi) > FreeCount(v0.used)
  {
    hide Mapped, Cost, Need;
    NeedAppend(v0, v1, i, lo, c);
    if ok {
      MappedStep(v0, v1, v, i, lo, c);
    } else {
      NeedMonotone(v0, i, lo, c + 1, hi);
    }
  }

  lemma TookResized(v0: Vol, v1: Vol, v: Vol, i: nat, lo: int, hi: int, n: int)
    requires Took(v0, v1, i, lo, hi) && i < |v1.ino| && (v == v1 || v == Resized(v1, i, n))
    ensures Took(v0, v, i, lo, hi)
  {
    hide Need;
    ResizedAt(v1, i, n);
    forall k: int ensures Addr(v, i, k) == Addr(v1, i, k) {
      assert At(v, SlotOf(i, k)) == At(v1, SlotOf(i, k));
    }
    assert v.used == v1.used;
    assert At(v, Ptr(i, NDIRECT)) == At(v1, Ptr(i, NDIRECT));
  }

  /** Two writes, the second from the last block of the first or the one after. */
  lemma {:induction false} NeedCompose(v0: Vol, v1: Vol, i: int, lo: int, c: int, lo': int, h: int)
    requires Mapped(v0, v1, i, lo, c) && 0 <= lo <= c <= h && (lo' == c || lo <= lo' == c - 1)
    ensures Need(v0, i, lo, h) == Need(v0, i, lo, c) + Need(v1, i, lo', h)
    decreases h
  {
    if lo < c {
      assert Addr(v1, i, c - 1) != 0;
      assert Missing(v1, i, c - 1, c) == Missing(v1, i, c - 1, c - 1) == 0;
    }
    if c < h {
      NeedCompose(v0, v1, i, lo, c, lo', h - 1);
      assert Addr(v1, i, h - 1) == Addr(v0, i, h - 1);
    }
  }

  lemma TookTwice(v0: Vol, v1: Vol, v2: Vol, i: int, lo: int, c: int, lo': int, h: int)
    requires Took(v0, v1, i, lo, c) && Took(v1, v2, i, lo', h) && c <= h && (lo' == c || lo <= lo' == c - 1)
    ensures Took(v0, v2, i, lo, h)
  {
    NeedCompose(v0, v1, i, lo, c, lo', h);
  }

  /** Where a turn of writei's loop starts and ends, in blocks. */
  lemma TurnEnds(off: nat, n: nat, tot: nat, m: nat)
    requires tot < n && m == Min(n - tot, BSIZE - (off + tot) % BSIZE) && off + n <= MAXBYTES
    ensures (off + tot) / BSIZE < EndBlock(off, n) <= MAXFILE
    ensures (if tot + m < n then (off + tot + m) / BSIZE else EndBlock(off, n)) == (off + tot) / BSIZE + 1
  {
  }

  /** Only the block pointers of inode i may differ. */
  predicate SameButAddrs(v: Vol, v': Vol, i: nat)
    requires i < |v.ino|
  {
    && |v'.ino| == |v.ino| && v'.sb == v.sb
    && v'.ino == v.ino[i := v.ino[i].(addrs := v'.ino[i].addrs)]
  }

  /** No address that was set has changed. */
  ghost predicate Grown(v: Vol, v': Vol) {
    forall s :: At(v, s) != 0 ==> At(v', s) == At(v, s)
  }

  /** Only slot s may name another block. */
  ghost predicate OnlySlot(v: Vol, v': Vol, s: Slot) {
    forall t :: t != s ==> At(v', t) == At(v, t)
  }

  ghost predicate SameBytes(v: Vol, v': Vol) {
    forall i, k :: ByteAt(v', i, k) == ByteAt(v, i, k)
  }

  /** What allocating blocks for file i does: nothing anyone can read changes. */
  ghost predicate Extended(v: Vol, v': Vol, owner': Owner, i: nat) {
    && 0 <= i < |v.ino| && Shape(v') && Owned(v', owner')
    && SameButAddrs(v, v', i) && Grown(v, v') && SameBytes(v, v')
  }

  lemma ExtendedRefl(v: Vol, owner: Owner, i: nat)
    requires Shape(v) && Owned(v, owner) && i < |v.ino|
    ensures Extended(v, v, owner, i)
  {
  }

  lemma ExtendedOwned(v: Vol, v': Vol, owner': Owner, i: nat)
    requires Extended(v, v', owner', i)
    ensures Shape(v') && Owned(v', owner') && i < |v'.ino| && v'.sb == v.sb
  {
  }

  lemma ExtendedTrans(v0: Vol, v1: Vol, o1: Owner, v2: Vol, o2: Owner, i: nat)
    requires Shape(v0) && Extended(v0, v1, o1, i) && Extended(v1, v2, o2, i)
    ensures Extended(v0, v2, o2, i)
  {
  }

  /** File i has the bytes `data` from `off` on, and nothing else changed. */
  ghost predicate Written(v: Vol, v': Vol, owner': Owner, i: nat, off: nat, data: seq<byte>) {
    && 0 <= i < |v.ino| && Shape(v') && Owned(v', owner')
    && SameButAddrs(v, v', i) && Grown(v, v')
    && forall m: int, k: int ::
         ByteAt(v', m, k) == if m == i && off <= k < off + |data| then data[k - off] else ByteAt(v, m, k)
  }

  lemma WrittenAppend(v0: Vol, v1: Vol, o1: Owner, v2: Vol, o2: Owner, i: nat, off: nat, a: seq<byte>, b: seq<byte>)
    requires Shape(v0) && Written(v0, v1, o1, i, off, a) && Written(v1, v2, o2, i, off + |a|, b)
    ensures Written(v0, v2, o2, i, off, a + b)
  {
  }

  /** Storing `piece` inside one block of file i. */
  lemma PieceWritten(v0: Vol, v: Vol, owner: Owner, i: nat, off: nat, piece: seq<byte>)
    requires Shape(v0) && Extended(v0, v, owner, i) && off % BSIZE + |piece| <= BSIZE
    requires Addr(v, i, off / BSIZE) != 0
    ensures var b := Addr(v, i, off / BSIZE);
            && 0 < b < v.sb.size == |v.blk| && |v.blk[b]| == BSIZE
            && var v' := SetBlock(v, b, Patch(v.blk[b], off % BSIZE, piece));
            Written(v0, v', owner, i, off, piece) && forall s :: At(v', s) == At(v, s)
  {
    var b, lo := Addr(v, i, off / BSIZE), off % BSIZE;
    UsedRange(v, owner, SlotOf(i, off / BSIZE));
    var data := Patch(v.blk[b], lo, piece);
    assert owner[b] == SlotOf(i, off / BSIZE);
    Store(v, owner, b, data);
    var v' := SetBlock(v, b, data);
    forall m: int, k: int
      ensures ByteAt(v', m, k) == if m == i && off <= k < off + |piece| then piece[k - off] else ByteAt(v0, m, k)
    {
      PieceByte(v, owner, i, off, piece, m, k);
      assert ByteAt(v, m, k) == ByteAt(v0, m, k);
    }
  }

  lemma PieceByte(v: Vol, owner: Owner, i: nat, off: nat, piece: seq<byte>, m: int, k: int)
    requires Shape(v) && Owned(v, owner) && i < |v.ino| && off % BSIZE + |piece| <= BSIZE
    requires Addr(v, i, off / BSIZE) != 0 && Addr(v, i, off / BSIZE) < |v.blk|
    ensures var b := Addr(v, i, off / BSIZE);
            var v' := SetBlock(v, b, Patch(v.blk[b], off % BSIZE, piece));
            && Shape(v')
            && ByteAt(v', m, k) == if m == i && off <= k < off + |piece| then piece[k - off] else ByteAt(v, m, k)
  {
    var b := Addr(v, i, off / BSIZE);
    StoreBytes(v, owner, i, off / BSIZE, Patch(v.blk[b], off % BSIZE, piece), m, k);
    if m == i && k / BSIZE == off / BSIZE {
      assert off <= k < off + |piece| <==> off % BSIZE <= k % BSIZE < off % BSIZE + |piece|;
    }
  }

  /** memmove(bp->data + lo, piece, |piece|). */
  function Patch(b: Block, lo: nat, piece: seq<byte>): (r: Block)
    requires lo + |piece| <= |b|
    ensures |r| == |b| && forall k :: 0 <= k < |r| ==> r[k] == if lo <= k < lo + |piece| then piece[k - lo] else b[k]
  {
    b[..lo] + piece + b[lo + |piece|..]
  }

  function BitBlock(sb: Super, b: int): int {
    sb.bmapstart + b / BPB
  }

  /** Every block that changed is among the blocks l, and so is the bit map block of every
      bit that changed. */
  predicate Logged(v: Vol, v': Vol, l: set<int>) {
    && v'.sb == v.sb && |v'.blk| == |v.blk| && |v'.used| == |v.used|
    && (forall b :: 0 <= b < |v.blk| && v'.blk[b] != v.blk[b] ==> b in l)
    && (forall b :: 0 <= b < |v.used| && v'.used[b] != v.used[b] ==> BitBlock(v.sb, b) in l)
  }

  /** The inode block of every on-disk inode that changed is among the blocks l. */
  predicate InodesLogged(sb: Super, d: seq<Inode>, d': seq<Inode>, l: set<int>) {
    |d'| == |d| && forall i :: 0 <= i < |d| && d'[i] != d[i] ==> sb.inodestart + i / IPB in l
  }

  /** The blocks [lo, hi) of file i are among the blocks l. */
  predicate DataLogged(v: Vol, i: int, lo: int, hi: int, l: set<int>) {
    forall k :: lo <= k < hi ==> Addr(v, i, k) in l
  }

  lemma LoggedNothing(v: Vol, l: set<int>)
    ensures Logged(v, v, l)
  {
  }

  lemma InodeLogged(sb: Super, d: seq<Inode>, d': seq<Inode>, i: nat, l: set<int>)
    requires d' == d || (i < |d| == |d'| && d' == d[i := d'[i]] && sb.inodestart + i / IPB in l)
    ensures InodesLogged(sb, d, d', l)
  {
  }

  lemma BlockLogged(v: Vol, b: nat, data: Block, l: set<int>)
    requires b < |v.blk| && b in l
    ensures Logged(v, SetBlock(v, b, data), l)
  {
  }

  lemma PointerLogged(v: Vol, i: nat, k: nat, b: nat, l: set<int>)
    requires Shape(v) && b < v.sb.size && i < |v.ino| && k <= NDIRECT && BitBlock(v.sb, b) in l && b in l
    ensures Logged(v, SetPtr(Allocate(v, b), i, k, b), l)
  {
  }

  lemma EntryLogged(v: Vol, ind: nat, j: nat, b: nat, l: set<int>)
    requires Shape(v) && b < v.sb.size && ind < v.sb.size && ind != b && j < NINDIRECT
    requires BitBlock(v.sb, b) in l && b in l && ind in l
    ensures Logged(v, SetBlock(Allocate(v, b), ind, PutWord(v.blk[ind], j, b)), l)
  {
  }

  lemma LoggedTwice(v: Vol, v1: Vol, v2: Vol, l1: set<int>, l2: set<int>)
    requires Logged(v, v1, l1) && Logged(v1, v2, l2) && l1 <= l2
    ensures Logged(v, v2, l2)
  {
  }

  /** What writei's loop has logged when it has written the blocks [lo, c). */
  predicate Journaled(v0: Vol, v: Vol, i: int, lo: int, c: int, l: set<int>) {
    Logged(v0, v, l) && DataLogged(v, i, lo, c, l)
  }

  lemma JournaledNothing(v: Vol, i: int, lo: int, l: set<int>)
    ensures Journaled(v, v, i, lo, lo, l)
  {
  }

  /** One more turn of the loop, at block c. */
  predicate TurnLogged(v: Vol, v': Vol, i: int, c: int, l: set<int>, l': set<int>) {
    l <= l' && Logged(v, v', l') && Addr(v', i, c) in l'
  }

  lemma JournaledStep(v0: Vol, v: Vol, v': Vol, i: int, lo: int, c: int, l: set<int>, l': set<int>)
    requires Journaled(v0, v, i, lo, c, l) && TurnLogged(v, v', i, c, l, l') && Mapped(v, v', i, c, c + 1)
    ensures Journaled(v0, v', i, lo, c + 1, l')
  {
    hide Logged, DataLogged, Mapped;
    LoggedTwice(v0, v, v', l, l');
    DataLoggedStep(v, v', i, lo, c, l, l');
  }

  lemma DataLoggedStep(v: Vol, v': Vol, i: int, lo: int, c: int, l: set<int>, l': set<int>)
    requires DataLogged(v, i, lo, c, l) && Mapped(v, v', i, c, c + 1) && l <= l' && Addr(v', i, c) in l'
    ensures DataLogged(v', i, lo, c + 1, l')
  {
  }

  lemma DataLoggedSame(v: Vol, v': Vol, i: int, lo: int, hi: int, l: set<int>, l': set<int>)
    requires DataLogged(v, i, lo, hi, l) && l <= l' && forall s :: At(v', s) == At(v, s)
    ensures DataLogged(v', i, lo, hi, l')
  {
    forall k | lo <= k < hi ensures Addr(v', i, k) in l' {
      assert At(v', SlotOf(i, k)) == At(v, SlotOf(i, k));
      assert Addr(v, i, k) in l;
    }
  }

  /** log_write calls, oldest first: the distinct blocks, and the most that were already
      logged when log_write was called. */
  datatype Journal = Journal(calls: seq<int>) {
    function Blocks(): set<int> {
      Elems(calls)
    }
    function Peak(): int {
      Basics.Peak(calls)
    }
  }

  class FileSystem {
    /** Blocks and bit map on the disk, and the in-memory inodes. */
    var v: Vol
    /** The on-disk inodes. */
    var dinode: seq<Inode>
    ghost var owner: Owner
    /** The log_write calls since the operation began. */
    ghost var log: Journal

    ghost predicate Valid()
      reads this
    {
      Inv(v, owner) && dinode == v.ino
    }

    lemma SizeBound(i: nat)
      requires Valid() && i < |v.ino|
      ensures v.ino[i].size == Size(v, i) <= MAXBYTES
    {
      assert Backed(v, i);
    }

    ghost method LogWrite(b: nat)
      modifies this`log
      ensures log.Blocks() == old(log).Blocks() + {b} && log.Peak() == Max(old(log).Peak(), |old(log).Blocks()|)
    {
      ElemsAdd(log.calls, b);
      log := Journal(log.calls + [b]);
    }

    /** What balloc does with the free block it found: mark it, log its bit, zero it. */
    method TakeBlock(b: nat)
      requires Shape(v) && b < v.sb.size
      modifies this`v, this`log
      ensures v == Allocate(old(v), b)
      ensures log.Blocks() == old(log).Blocks() + {BitBlock(v.sb, b), b}
      ensures log.Peak() <= Max(old(log).Peak(), |log.Blocks()|)
    {
      v := v.(used := v.used[b := true]);
      LogWrite(BitBlock(v.sb, b));
      v := v.(blk := v.blk[b := Zeros(BSIZE)]);
      LogWrite(b);
      assert log.Blocks() == old(log).Blocks() + {BitBlock(v.sb, b), b};
      CardSubset(old(log).Blocks() + {BitBlock(v.sb, b)}, log.Blocks());
      CardSubset(old(log).Blocks(), log.Blocks());
    }

    /** balloc: the lowest free block, marked in use and zeroed; None is the panic
        "out of blocks". */
    method Balloc() returns (r: Option<int>)
      requires Shape(v)
      modifies this`v, this`log
      ensures r.None? ==>
        v == old(v) && log.Blocks() == old(log).Blocks() && forall b :: 0 <= b < v.sb.size ==> v.used[b]
      ensures r.Some? ==>
        && 0 <= r.value < old(v).sb.size && !old(v).used[r.value]
        && (forall b :: 0 <= b < r.value ==> old(v).used[b])
        && v == Allocate(old(v), r.value)
        && log.Blocks() == old(log).Blocks() + {BitBlock(v.sb, r.value), r.value}
        && log.Peak() <= Max(old(log).Peak(), |log.Blocks()|)
    {
      var b := 0;
      while b < v.sb.size
        invariant 0 <= b && b % BPB == 0
        invariant v == old(v) && log == old(log)
        invariant forall c :: 0 <= c < b && c < v.sb.size ==> v.used[c]
      {
        var bi := 0;
        while bi < BPB && b + bi < v.sb.size
          invariant 0 <= bi <= BPB
          invariant v == old(v) && log == old(log)
          invariant forall c :: 0 <= c < b + bi && c < v.sb.size ==> v.used[c]
        {
          if !v.used[b + bi] {
            TakeBlock(b + bi);
            return Some(b + bi);
          }
          bi := bi + 1;
        }
        b := b + BPB;
      }
      return None;
    }

    /** bmap on an empty direct pointer, or on the pointer to the indirect block. */
    method FillPointer(i: nat, k: nat) returns (r: Option<int>)
      requires Shape(v) && Owned(v, owner) && i < |v.ino| && k <= NDIRECT && At(v, Ptr(i, k)) == 0
      modifies this`v, this`owner, this`log
      ensures r.Some? ==>
        && Extended(old(v), v, owner, i) && r.value != 0 && At(v, Ptr(i, k)) == r.value
        && (k != NDIRECT ==> At(v, Ptr(i, NDIRECT)) == At(old(v), Ptr(i, NDIRECT)))
        && log.Blocks() == old(log).Blocks() + {BitBlock(v.sb, r.value), r.value}
        && log.Peak() <= Max(old(log).Peak(), |log.Blocks()|)
      ensures r.None? <==> FreeCount(old(v).used) == 0
      ensures r.Some? ==> FreeCount(v.used) == FreeCount(old(v).used) - 1 && OnlySlot(old(v), v, Ptr(i, k))
      ensures r.Some? ==> Logged(old(v), v, log.Blocks())
    {
      hide Logged, Elems, Peak;
      ghost var v0 := v;
      FreeCountZero(v.used);
      r := Balloc();
      if r.None? {
        return;
      }
      var b := r.value;
      PointerLogged(v0, i, k, b, log.Blocks());
      PointerFilled(v0, owner, i, k, b);
      FreeCountTake(v0.used, b);
      v := SetPtr(v, i, k, b);
      owner := owner[b := Ptr(i, k)];
    }

    /** bmap on an empty entry of an existing indirect block. */
    method FillEntry(i: nat, j: nat) returns (r: Option<int>)
      requires Shape(v) && Owned(v, owner) && i < |v.ino| && j < NINDIRECT
      requires At(v, Ptr(i, NDIRECT)) != 0 && At(v, Entry(i, j)) == 0
      modifies this`v, this`owner, this`log
      ensures r.Some? ==>
        && Extended(old(v), v, owner, i) && r.value != 0 && At(v, Entry(i, j)) == r.value
        && log.Blocks() == old(log).Blocks() + {BitBlock(v.sb, r.value), r.value, At(v, Ptr(i, NDIRECT))}
        && log.Peak() <= Max(old(log).Peak(), |log.Blocks()|)
      ensures r.None? <==> FreeCount(old(v).used) == 0
      ensures r.Some? ==> FreeCount(v.used) == FreeCount(old(v).used) - 1 && OnlySlot(old(v), v, Entry(i, j))
      ensures r.Some? ==> Logged(old(v), v, log.Blocks())
    {
      hide Logged, Elems, Peak;
      ghost var v0 := v;
      FreeCountZero(v.used);
      var ind := At(v, Ptr(i, NDIRECT));
      UsedRange(v, owner, Ptr(i, NDIRECT));
      r := Balloc();
      if r.None? {
        return;
      }
      var b := r.value;
      EntryFilled(v0, owner, i, j, b);
      FreeCountTake(v0.used, b);
      v := SetBlock(v, ind, PutWord(v.blk[ind], j, b));
      ghost var before := log.Blocks();
      LogWrite(ind);
      CardSubset(before, log.Blocks());
      EntryLogged(v0, ind, j, b, log.Blocks());
      owner := owner[b := Entry(i, j)];
    }

    /** bmap: the address of block bn of file i, allocating it (and the indirect
        block) if it is missing.  No file's contents change, and an address that is
        already there is returned with no change at all. */
    method Bmap(i: nat, bn: nat) returns (r: Option<int>)
      requires Shape(v) && Owned(v, owner) && i < |v.ino|
      modifies this`v, this`owner, this`log
      ensures r.Some? ==>
        && bn < MAXFILE && r.value != 0 && r.value == Addr(v, i, bn)
        && Extended(old(v), v, owner, i) && log.Peak() <= Max(old(log).Peak(), |log.Blocks()|)
      ensures Addr(old(v), i, bn) != 0 ==>
        r == Some(Addr(v, i, bn)) && v == old(v) && owner == old(owner) && log == old(log)
      ensures r.Some? ==>
        old(log).Blocks() <= log.Blocks() && LogStep(old(v), v, i, bn, old(log).Blocks(), log.Blocks())
      ensures r.None? <==> bn >= MAXFILE || Cost(old(v), i, bn) > FreeCount(old(v).used)
      ensures r.Some? ==>
        FreeCount(v.used) == FreeCount(old(v).used) - Cost(old(v), i, bn) && Mapped(old(v), v, i, bn, bn + 1)
      ensures r.Some? ==> Logged(old(v), v, log.Blocks())
    {
      hide Mapped, Extended, Owned, Shape, LogStep, FreeCount, Elems, Peak, Logged;
      if bn < NDIRECT {
        r := BmapDirect(i, bn);
        return;
      }
      r := BmapIndirect(i, bn);
    }

    method BmapDirect(i: nat, bn: nat) returns (r: Option<int>)
      requires Shape(v) && Owned(v, owner) && i < |v.ino| && bn < NDIRECT
      modifies this`v, this`owner, this`log
      ensures r.Some? ==>
        && r.value != 0 && r.value == At(v, Ptr(i, bn))
        && Extended(old(v), v, owner, i) && log.Peak() <= Max(old(log).Peak(), |log.Blocks()|)
      ensures At(old(v), Ptr(i, bn)) != 0 ==>
        r == Some(At(v, Ptr(i, bn))) && v == old(v) && owner == old(owner) && log == old(log)
      ensures r.Some? ==>
        old(log).Blocks() <= log.Blocks() && LogStep(old(v), v, i, bn, old(log).Blocks(), log.Blocks())
      ensures r.None? <==> Cost(old(v), i, bn) > FreeCount(old(v).used)
      ensures r.Some? ==>
        FreeCount(v.used) == FreeCount(old(v).used) - Cost(old(v), i, bn) && Mapped(old(v), v, i, bn, bn + 1)
      ensures r.Some? ==> Logged(old(v), v, log.Blocks())
    {
      hide Extended, Owned, OnlySlot, FreeCount, BitBlock, Elems, Peak, Mapped, Logged;
      ghost var v0 := v;
      var addr := v.ino[i].addrs[bn];
      if addr == 0 {
        r := FillPointer(i, bn);
        if r.Some? {
          DirectMapped(v0, v, i, bn);
        }
      } else {
        ExtendedRefl(v, owner, i);
        SameMapped(v, i, bn);
        LoggedNothing(v, log.Blocks());
        r := Some(addr);
      }
    }

    method IndirectBlock(i: nat) returns (r: Option<int>)
      requires Shape(v) && Owned(v, owner) && i < |v.ino|
      modifies this`v, this`owner, this`log
      ensures r.Some? ==>
        && r.value != 0 && r.value == At(v, Ptr(i, NDIRECT))
        && Extended(old(v), v, owner, i) && log.Peak() <= Max(old(log).Peak(), |log.Blocks()|)
        && old(log).Blocks() <= log.Blocks() <= old(log).Blocks() + {BitBlock(v.sb, r.value), r.value}
      ensures At(old(v), Ptr(i, NDIRECT)) != 0 ==>
        r.Some? && v == old(v) && owner == old(owner) && log == old(log)
      ensures r.None? <==> At(old(v), Ptr(i, NDIRECT)) == 0 && FreeCount(old(v).used) == 0
      ensures r.Some? ==>
        && OnlySlot(old(v), v, Ptr(i, NDIRECT))
        && FreeCount(v.used) == FreeCount(old(v).used) - (if At(old(v), Ptr(i, NDIRECT)) == 0 then 1 else 0)
        && Logged(old(v), v, log.Blocks())
    {
      var ind := v.ino[i].addrs[NDIRECT];
      if ind == 0 {
        r := FillPointer(i, NDIRECT);
      } else {
        ExtendedRefl(v, owner, i);
        r := Some(ind);
      }
    }

    method BmapIndirect(i: nat, bn: nat) returns (r: Option<int>)
      requires Shape(v) && Owned(v, owner) && i < |v.ino| && NDIRECT <= bn
      modifies this`v, this`owner, this`log
      ensures r.Some? ==>
        && bn < MAXFILE && r.value != 0 && r.value == At(v, Entry(i, bn - NDIRECT))
        && Extended(old(v), v, owner, i) && log.Peak() <= Max(old(log).Peak(), |log.Blocks()|)
      ensures At(old(v), Entry(i, bn - NDIRECT)) != 0 ==>
        r == Some(At(v, Entry(i, bn - NDIRECT)))
        && v == old(v) && owner == old(owner) && log == old(log)
      ensures r.Some? ==>
        old(log).Blocks() <= log.Blocks() && LogStep(old(v), v, i, bn, old(log).Blocks(), log.Blocks())
      ensures r.None? <==> bn >= MAXFILE || Cost(old(v), i, bn) > FreeCount(old(v).used)
      ensures r.Some? ==>
        FreeCount(v.used) == FreeCount(old(v).used) - Cost(old(v), i, bn) && Mapped(old(v), v, i, bn, bn + 1)
      ensures r.Some? ==> Logged(old(v), v, log.Blocks())
    {
      hide Mapped, Extended, Owned, Shape, LogStep, OnlySlot, FreeCount, BitBlock, Elems, Peak, Logged;
      if bn - NDIRECT >= NINDIRECT {
        return None;
      }
      ghost var v0, l0 := v, log.Blocks();
      r := IndirectBlock(i);
      if r.None? {
        return;
      }
      ghost var v1, o1, l1 := v, owner, log.Blocks();
      ExtendedOwned(v0, v1, o1, i);
      r := IndirectEntry(i, bn - NDIRECT);
      if r.Some? {
        ExtendedOwned(v1, v, owner, i);
      }
      if r.Some? {
        ExtendedTrans(v0, v1, o1, v, owner, i);
        IndirectMapped(v0, v1, v, i, bn);
        IndirectLogged(v0, v1, v, i, bn, l0, l1, log.Blocks());
        LoggedTwice(v0, v1, v, l1, log.Blocks());
        CardSubset(l1, log.Blocks());
      }
    }

    method IndirectEntry(i: nat, j: nat) returns (r: Option<int>)
      requires Shape(v) && Owned(v, owner) && i < |v.ino| && j < NINDIRECT && At(v, Ptr(i, NDIRECT)) != 0
      modifies this`v, this`owner, this`log
      ensures r.Some? ==>
        && r.value != 0 && r.value == At(v, Entry(i, j))
        && Extended(old(v), v, owner, i) && log.Peak() <= Max(old(log).Peak(), |log.Blocks()|)
        && old(log).Blocks() <= log.Blocks()
        && log.Blocks() <= old(log).Blocks() + {BitBlock(v.sb, r.value), r.value, At(v, Ptr(i, NDIRECT))}
      ensures At(old(v), Entry(i, j)) != 0 ==>
        r.Some? && v == old(v) && owner == old(owner) && log == old(log)
      ensures r.None? <==> At(old(v), Entry(i, j)) == 0 && FreeCount(old(v).used) == 0
      ensures r.Some? ==>
        && OnlySlot(old(v), v, Entry(i, j))
        && FreeCount(v.used) == FreeCount(old(v).used) - (if At(old(v), Entry(i, j)) == 0 then 1 else 0)
        && Logged(old(v), v, log.Blocks())
    {
      UsedRange(v, owner, Ptr(i, NDIRECT));
      var ind := At(v, Ptr(i, NDIRECT));
      var addr := Word(v.blk[ind], j);
      if addr == 0 {
        r := FillEntry(i, j);
      } else {
        ExtendedRefl(v, owner, i);
        r := Some(addr);
      }
    }

    /** One turn of writei's loop: the bytes that fall in one block. */
    method WritePiece(i: nat, off: nat, piece: seq<byte>) returns (ok: bool)
      requires Shape(v) && Owned(v, owner) && i < |v.ino| && off % BSIZE + |piece| <= BSIZE
      modifies this`v, this`owner, this`log
      ensures ok ==>
        && Written(old(v), v, owner, i, off, piece) && Addr(v, i, off / BSIZE) != 0
        && log.Peak() <= Max(old(log).Peak(), |log.Blocks()|) && old(log).Blocks() <= log.Blocks()
        && LogStep(old(v), v, i, off / BSIZE, old(log).Blocks(), log.Blocks())
      ensures ok && Addr(old(v), i, off / BSIZE) != 0 ==> v.ino == old(v).ino
      ensures ok <==> off / BSIZE < MAXFILE && Cost(old(v), i, off / BSIZE) <= FreeCount(old(v).used)
      ensures ok ==>
        && FreeCount(v.used) == FreeCount(old(v).used) - Cost(old(v), i, off / BSIZE)
        && Mapped(old(v), v, i, off / BSIZE, off / BSIZE + 1)
      ensures ok ==> Logged(old(v), v, log.Blocks()) && Addr(v, i, off / BSIZE) in log.Blocks()
    {
      hide Owned, Shape, Extended, Written, Mapped, Cost, LogStep, Logged, FreeCount, Elems, Peak;
      ghost var v0, l0 := v, log.Blocks();
      var r := Bmap(i, off / BSIZE);
      if r.None? {
        return false;
      }
      ghost var v1, l1 := v, log.Blocks();
      PieceWritten(v0, v, owner, i, off, piece);
      ghost var v2 := SetBlock(v, r.value, Patch(v.blk[r.value], off % BSIZE, piece));
      PieceLogged(v0, v, v2, i, off / BSIZE, l0, l1, r.value);
      v := SetBlock(v, r.value, Patch(v.blk[r.value], off % BSIZE, piece));
      LogWrite(r.value);
      CardSubset(l1, log.Blocks());
      BlockLogged(v1, r.value, v.blk[r.value], log.Blocks());
      LoggedTwice(v0, v1, v, l1, log.Blocks());
      assert At(v, SlotOf(i, off / BSIZE)) == At(v1, SlotOf(i, off / BSIZE));
      return true;
    }

    /** A turn of writei's loop and what it adds to the log. */
    method WriteTurn(ghost v0: Vol, i: nat, off: nat, src: seq<byte>, tot: nat, ghost l0: set<int>, ghost t: Tally)
      returns (ok: bool, m: nat, ghost t': Tally)
      requires Shape(v0) && Backed(v0, i) && off <= v0.ino[i].size && tot < |src|
      requires Progress(v0, v, owner, i, off, src, tot) && Counted(v0, v, i, off, |src|, tot, l0, log.Blocks(), t)
      modifies this`v, this`owner, this`log
      ensures 0 < m <= |src| - tot
      ensures ok ==> Progress(v0, v, owner, i, off, src, tot + m)
      ensures ok ==> Counted(v0, v, i, off, |src|, tot + m, l0, log.Blocks(), t')
      ensures ok ==> log.Peak() <= Max(old(log).Peak(), |log.Blocks()|) && |old(log).Blocks()| <= |log.Blocks()|
      ensures m == Min(|src| - tot, BSIZE - (off + tot) % BSIZE)
      ensures var c := (off + tot) / BSIZE;
        && (ok <==> c < MAXFILE && Cost(old(v), i, c) <= FreeCount(old(v).used))
        && (ok ==> FreeCount(v.used) == FreeCount(old(v).used) - Cost(old(v), i, c) && Mapped(old(v), v, i, c, c + 1))
        && (ok ==> TurnLogged(old(v), v, i, c, old(log).Blocks(), log.Blocks()))
    {
      hide Counted, Owned, Mapped, Cost, Logged;
      ghost var v1, o1, l1 := v, owner, log.Blocks();
      m := Min(|src| - tot, BSIZE - (off + tot) % BSIZE);
      ok := WritePiece(i, off + tot, src[tot..tot + m]);
      t' := t;
      if ok {
        t' := CountedStep(v0, v1, v, i, off, |src|, tot, l0, l1, log.Blocks(), t);
        ProgressStep(v0, v1, o1, v, owner, i, off, src, tot, m);
        CardSubset(l1, log.Blocks());
      }
    }

    /** writei's loop: it gets through exactly when the blocks it must allocate are free. */
    method WriteBlocks(i: nat, off: nat, src: seq<byte>) returns (ok: bool)
      requires Shape(v) && Owned(v, owner) && Backed(v, i) && off <= v.ino[i].size && off + |src| <= MAXBYTES
      modifies this`v, this`owner, this`log
      ensures ok ==> Progress(old(v), v, owner, i, off, src, |src|)
      ensures ok ==> |log.Blocks()| <= |old(log).Blocks()| + LogBound(off, |src|)
      ensures ok ==> log.Peak() <= Max(old(log).Peak(), |log.Blocks()|)
      ensures ok <==> Need(old(v), i, off / BSIZE, EndBlock(off, |src|)) <= FreeCount(old(v).used)
      ensures ok ==> Took(old(v), v, i, off / BSIZE, EndBlock(off, |src|))
      ensures ok ==> Journaled(old(v), v, i, off / BSIZE, EndBlock(off, |src|), log.Blocks())
    {
      hide Counted, Progress, Took, Need, Cost, Mapped, LogBound, Journaled, TurnLogged, FreeCount, Elems, Peak;
      ghost var v0, l0, t := v, log.Blocks(), Tally({}, {}, 0, 0);
      ghost var lo, hi := off / BSIZE, EndBlock(off, |src|);
      var tot := 0;
      ProgressStart(v, owner, i, off, src);
      CountedStart(v, i, off, |src|, log.Blocks());
      TookNothing(v, i, lo);
      JournaledNothing(v, i, lo, l0);
      while tot < |src|
        invariant 0 <= tot <= |src| && Progress(v0, v, owner, i, off, src, tot)
        invariant Counted(v0, v, i, off, |src|, tot, l0, log.Blocks(), t)
        invariant log.Peak() <= Max(old(log).Peak(), |log.Blocks()|)
        invariant Took(v0, v, i, lo, if tot < |src| then (off + tot) / BSIZE else hi)
        invariant Journaled(v0, v, i, lo, if tot < |src| then (off + tot) / BSIZE else hi, log.Blocks())
      {
        ghost var v1, l1, c := v, log.Blocks(), (off + tot) / BSIZE;
        var m;
        ok, m, t := WriteTurn(v0, i, off, src, tot, l0, t);
        TurnEnds(off, |src|, tot, m);
        TookStep(v0, v1, v, i, lo, c, hi, ok);
        if !ok {
          return;
        }
        JournaledStep(v0, v1, v, i, lo, c, l1, log.Blocks());
        tot := tot + m;
      }
      CountedTotal(v0, v, i, off, |src|, l0, log.Blocks(), t);
      TookEnough(v0, v, i, lo, hi);
      return true;
    }

    /** iupdate. */
    method Iupdate(i: nat)
      requires i < |v.ino| == |dinode|
      modifies this`dinode, this`log
      ensures dinode == old(dinode)[i := v.ino[i]]
      ensures log.Blocks() == old(log).Blocks() + {v.sb.inodestart + i / IPB}
      ensures log.Peak() == Max(old(log).Peak(), |old(log).Blocks()|)
    {
      dinode := dinode[i := v.ino[i]];
      LogWrite(v.sb.inodestart + i / IPB);
    }

    /** writei: on success file i holds the new bytes from `off` on, every other file
        is as it was, the on-disk inode equals the one in memory, and the blocks
        logged are bounded.  It runs out of blocks, the only panic it can reach, exactly
        when the write must allocate more blocks than are free. */
    method Writei(i: nat, src: seq<byte>, off: nat) returns (r: Outcome)
      requires Valid() && i < |v.ino| && off < WORD && |src| < WORD
      modifies this
      ensures r.Error? <==> old(v).ino[i].kind != T_DEV && (off > Size(old(v), i) || off + |src| > MAXBYTES)
      ensures r.ToDevice? <==> old(v).ino[i].kind == T_DEV
      ensures r.Error? || r.ToDevice? ==>
        Valid() && v == old(v) && dinode == old(dinode) && owner == old(owner) && log.Blocks() == old(log).Blocks()
      ensures r.Bytes? ==>
        && r.n == |src| && Valid() && v.sb == old(v).sb && |v.ino| == |old(v).ino| && off <= Size(old(v), i)
        && v.ino[i] == old(v).ino[i].(size := v.ino[i].size, addrs := v.ino[i].addrs)
        && Content(v, i) == Splice(Content(old(v), i), off, src)
        && (forall m :: 0 <= m < |v.ino| && m != i ==> v.ino[m] == old(v).ino[m] && Content(v, m) == Content(old(v), m))
        && |log.Blocks()| <= |old(log).Blocks()| + LogBound(off, |src|) + 1
        && log.Peak() <= Max(old(log).Peak(), |old(log).Blocks()| + LogBound(off, |src|))
      ensures r.Panic? <==> !r.Error? && !r.ToDevice?
                            && Need(old(v), i, off / BSIZE, EndBlock(off, |src|)) > FreeCount(old(v).used)
      ensures r.Bytes? ==> Took(old(v), v, i, off / BSIZE, EndBlock(off, |src|))
      ensures r.Bytes? ==>
        && Logged(old(v), v, log.Blocks()) && InodesLogged(v.sb, old(dinode), dinode, log.Blocks())
        && DataLogged(v, i, off / BSIZE, EndBlock(off, |src|), log.Blocks())
    {
      hide Valid, Need, Took, FreeCount, LogBound, Content, Splice, Logged, InodesLogged, DataLogged;
      SizeBound(i);
      if v.ino[i].kind == T_DEV {
        return ToDevice;
      }
      if off > v.ino[i].size || (off + |src|) % WORD < off {
        return Error;
      }
      if off + |src| > MAXBYTES {
        return Error;
      }
      var ok := WriteAndGrow(i, src, off);
      return if ok then Bytes(|src|) else Panic;
    }

    /** The rest of writei: its loop, and the new size if the file has grown. */
    method WriteAndGrow(i: nat, src: seq<byte>, off: nat) returns (ok: bool)
      requires Valid() && i < |v.ino| && off <= v.ino[i].size && off + |src| <= MAXBYTES
      modifies this
      ensures ok <==> Need(old(v), i, off / BSIZE, EndBlock(off, |src|)) <= FreeCount(old(v).used)
      ensures ok ==>
        && Valid() && v.sb == old(v).sb && |v.ino| == |old(v).ino|
        && v.ino[i] == old(v).ino[i].(size := v.ino[i].size, addrs := v.ino[i].addrs)
        && Content(v, i) == Splice(Content(old(v), i), off, src)
        && (forall m :: 0 <= m < |v.ino| && m != i ==> v.ino[m] == old(v).ino[m] && Content(v, m) == Content(old(v), m))
        && |log.Blocks()| <= |old(log).Blocks()| + LogBound(off, |src|) + 1
        && log.Peak() <= Max(old(log).Peak(), |old(log).Blocks()| + LogBound(off, |src|))
        && Took(old(v), v, i, off / BSIZE, EndBlock(off, |src|))
        && Logged(old(v), v, log.Blocks()) && InodesLogged(v.sb, old(dinode), dinode, log.Blocks())
        && DataLogged(v, i, off / BSIZE, EndBlock(off, |src|), log.Blocks())
    {
      hide Need, Took, Progress, Inv, FreeCount, LogBound, Content, Splice, Logged, DataLogged, InodesLogged, Elems,
        Peak;
      InvParts(v, owner, i);
      ok := WriteBlocks(i, off, src);
      if ok {
        ghost var v1, l1 := v, log.Blocks();
        ProgressSize(old(v), v1, owner, i, off, src);
        if |src| > 0 && off + |src| > v.ino[i].size {
          v := v.(ino := v.ino[i := v.ino[i].(size := off + |src|)]);
          Iupdate(i);
        }
        InodeLogged(v.sb, old(dinode), dinode, i, log.Blocks());
        WriteDone(old(v), old(owner), v1, v, owner, i, off, src);
        TookResized(old(v), v1, v, i, off / BSIZE, EndBlock(off, |src|), off + |src|);
        LoggedResized(old(v), v1, v, i, off + |src|, l1, log.Blocks());
        ResizedAt(v1, i, off + |src|);
        DataLoggedSame(v1, v, i, off / BSIZE, EndBlock(off, |src|), l1, log.Blocks());
      }
    }

    /** bmap on a block that is there. */
    method Lookup(i: nat, bn: nat) returns (b: int)
      requires Shape(v) && Owned(v, owner) && i < |v.ino| && Addr(v, i, bn) != 0
      modifies this`v, this`owner, this`log
      ensures b == Addr(v, i, bn) && 0 < b < |v.blk| && |v.blk[b]| == BSIZE
      ensures v == old(v) && owner == old(owner) && log == old(log)
    {
      UsedRange(v, owner, SlotOf(i, bn));
      hide Owned, Extended, LogStep, Mapped;
      var r := Bmap(i, bn);
      b := r.value;
    }

    /** readi: the bytes of file i from `off`, up to its end.  It goes through bmap
        but never allocates, never panics and changes nothing. */
    method Readi(i: nat, off: nat, count: nat) returns (r: Outcome, dst: seq<byte>)
      requires Valid() && i < |v.ino| && off < WORD && count < WORD
      modifies this`v, this`owner, this`log
      ensures v == old(v) && owner == old(owner) && log == old(log)
      ensures r.ToDevice? <==> v.ino[i].kind == T_DEV
      ensures r.Error? <==> v.ino[i].kind != T_DEV && (off > Size(v, i) || off + count >= WORD)
      ensures r.Bytes? ==>
        && off <= Size(v, i) && r.n == |dst| == Min(count, Size(v, i) - off)
        && dst == Content(v, i)[off..off + r.n]
      ensures !r.Panic?
    {
      dst := [];
      assert Backed(v, i);
      if v.ino[i].kind == T_DEV {
        return ToDevice, dst;
      }
      if off > v.ino[i].size || (off + count) % WORD < off {
        return Error, dst;
      }
      var n := count;
      if off + n > v.ino[i].size {
        n := v.ino[i].size - off;
      }
      var tot := 0;
      while tot < n
        invariant 0 <= tot <= n && |dst| == tot
        invariant v == old(v) && owner == old(owner) && log == old(log)
        invariant forall k :: 0 <= k < tot ==> dst[k] == ByteAt(v, i, off + k)
      {
        var cur := off + tot;
        assert Addr(v, i, cur / BSIZE) != 0;
        var b := Lookup(i, cur / BSIZE);
        var m := Min(n - tot, BSIZE - cur % BSIZE);
        var lo := cur % BSIZE;
        PieceRead(v, i, cur, m);
        dst := dst + v.blk[b][lo..lo + m];
        tot := tot + m;
      }
      return Bytes(n), dst;
    }

    /** bfree; false is the panic "freeing free block". */
    method Bfree(b: nat) returns (ok: bool)
      requires Shape(v) && b < v.sb.size
      modifies this`v, this`log
      ensures ok == old(v).used[b]
      ensures ok ==> v == old(v).(used := old(v).used[b := false])
      ensures ok ==> log.Blocks() == old(log).Blocks() + {BitBlock(v.sb, b)}
      ensures !ok ==> v == old(v)
    {
      if !v.used[b] {
        return false;
      }
      v := v.(used := v.used[b := false]);
      LogWrite(BitBlock(v.sb, b));
      return true;
    }

    /** itrunc's loop over the direct pointers. */
    method FreeDirect(i: nat) returns (ok: bool)
      requires Inv(v, owner) && i < |v.ino|
      modifies this`v, this`log
      ensures ok && v == Freeing(old(v), owner, i, NDIRECT, 0)
      ensures old(log).Blocks() <= log.Blocks() && Logged(old(v), v, log.Blocks())
    {
      ghost var v0 := v;
      var k := 0;
      FreeingNothing(v, owner, i);
      while k < NDIRECT
        invariant 0 <= k <= NDIRECT && v == Freeing(v0, owner, i, k, 0)
        invariant old(log).Blocks() <= log.Blocks() && Logged(v0, v, log.Blocks())
      {
        FreeingPtr(v0, owner, i, k, 0);
        if v.ino[i].addrs[k] != 0 {
          ok := Bfree(v.ino[i].addrs[k]);
          if !ok {
            return;
          }
          v := SetPtr(v, i, k, 0);
        }
        k := k + 1;
      }
      return true;
    }

    /** itrunc's loop over the indirect block, and the indirect block itself. */
    method FreeIndirect(i: nat, ghost v0: Vol) returns (ok: bool)
      requires Inv(v0, owner) && i < |v0.ino| && v == Freeing(v0, owner, i, NDIRECT, 0)
      modifies this`v, this`log
      ensures ok && v == Freeing(v0, owner, i, NDIRECT + 1, NINDIRECT)
      ensures old(log).Blocks() <= log.Blocks() && Logged(old(v), v, log.Blocks())
    {
      FreeingPtr(v0, owner, i, NDIRECT, 0);
      var ind := v.ino[i].addrs[NDIRECT];
      if ind == 0 {
        FreeingNoIndirect(v0, owner, i);
        return true;
      }
      var j := 0;
      while j < NINDIRECT
        invariant 0 <= j <= NINDIRECT && v == Freeing(v0, owner, i, NDIRECT, j)
        invariant old(log).Blocks() <= log.Blocks() && Logged(old(v), v, log.Blocks())
      {
        FreeingEntry(v0, owner, i, j);
        if Word(v.blk[ind], j) != 0 {
          ok := Bfree(Word(v.blk[ind], j));
          if !ok {
            return;
          }
        }
        j := j + 1;
      }
      FreeingPtr(v0, owner, i, NDIRECT, NINDIRECT);
      ok := Bfree(ind);
      if !ok {
        return;
      }
      v := SetPtr(v, i, NDIRECT, 0);
      return true;
    }

    /** itrunc: file i becomes empty and exactly the blocks it owned are freed; the
        panic "freeing free block" cannot happen. */
    method Itrunc(i: nat) returns (ok: bool)
      requires Valid() && i < |v.ino|
      modifies this
      ensures ok && Valid() && v == Truncated(old(v), old(owner), i) && owner == Disowned(old(owner), i)
      ensures Content(v, i) == []
      ensures forall m :: 0 <= m < |v.ino| && m != i ==>
        v.ino[m] == old(v).ino[m] && Content(v, m) == Content(old(v), m)
      ensures Logged(old(v), v, log.Blocks()) && InodesLogged(v.sb, old(dinode), dinode, log.Blocks())
    {
      ghost var v0 := v;
      ok := FreeDirect(i);
      if !ok {
        return;
      }
      ok := FreeIndirect(i, v0);
      if !ok {
        return;
      }
      v := v.(ino := v.ino[i := v.ino[i].(size := 0)]);
      Iupdate(i);
      FreeingAll(v0, owner, i);
      TruncateInv(v0, owner, i);
      owner := Disowned(owner, i);
    }
  }

  /** The bytes of file i that fall in one block are bytes of that block. */
  lemma PieceRead(v: Vol, i: nat, cur: nat, m: nat)
    requires Shape(v) && cur % BSIZE + m <= BSIZE && 0 < Addr(v, i, cur / BSIZE) < |v.blk|
    ensures forall p :: cur <= p < cur + m ==> ByteAt(v, i, p) == v.blk[Addr(v, i, cur / BSIZE)][p - cur + cur % BSIZE]
  {
    forall p | cur <= p < cur + m
      ensures p / BSIZE == cur / BSIZE && p % BSIZE == p - cur + cur % BSIZE
    {
    }
  }

  /** Has itrunc freed block b of file i once it is past pointer k and entry j? */
  predicate Gone(owner: Owner, b: int, i: int, k: int, j: int) {
    b in owner && owner[b].i == i && match owner[b] { case Ptr(_, n) => n < k case Entry(_, n) => n < j }
  }

  /** The volume when itrunc is past pointer k and entry j. */
  function Freeing(v: Vol, owner: Owner, i: nat, k: nat, j: nat): Vol
    requires i < |v.ino| && |v.ino[i].addrs| == NDIRECT + 1 && k <= NDIRECT + 1
  {
    v.(used := seq(|v.used|, b requires 0 <= b < |v.used| => v.used[b] && !Gone(owner, b, i, k, j)),
       ino := v.ino[i := v.ino[i].(
                addrs := seq(NDIRECT + 1, n requires 0 <= n <= NDIRECT => if n < k then 0 else v.ino[i].addrs[n]))])
  }

  lemma FreeingNothing(v: Vol, owner: Owner, i: nat)
    requires Inv(v, owner) && i < |v.ino|
    ensures Freeing(v, owner, i, 0, 0) == v
  {
    forall b | b in owner && owner[b].i == i
      ensures !Gone(owner, b, i, 0, 0)
    {
      assert At(v, owner[b]) == b;
    }
    assert Freeing(v, owner, i, 0, 0).used == v.used;
    assert Freeing(v, owner, i, 0, 0).ino[i].addrs == v.ino[i].addrs;
    assert Freeing(v, owner, i, 0, 0).ino == v.ino;
  }

  /** The step over pointer k. */
  lemma FreeingPtr(v: Vol, owner: Owner, i: nat, k: nat, j: nat)
    requires Inv(v, owner) && i < |v.ino| && k <= NDIRECT
    ensures var w, a := Freeing(v, owner, i, k, j), v.ino[i].addrs[k];
            && Shape(w) && w.ino[i].addrs[k] == a
            && (a != 0 ==> 0 <= a < v.sb.size && w.used[a] && a in owner && owner[a] == Ptr(i, k))
            && (a == 0 ==> Freeing(v, owner, i, k + 1, j) == w)
            && (a != 0 ==> Freeing(v, owner, i, k + 1, j) == SetPtr(w.(used := w.used[a := false]), i, k, 0))
  {
    var w, w', a := Freeing(v, owner, i, k, j), Freeing(v, owner, i, k + 1, j), v.ino[i].addrs[k];
    assert At(v, Ptr(i, k)) == a;
    forall b | 0 <= b < |v.used|
      ensures w'.used[b] == (w.used[b] && (b != a || a == 0))
    {
      if b in owner {
        assert At(v, owner[b]) == b;
      }
    }
    if a == 0 {
      assert w'.used == w.used;
      assert w'.ino[i].addrs == w.ino[i].addrs;
      assert w'.ino == w.ino;
    } else {
      var x := SetPtr(w.(used := w.used[a := false]), i, k, 0);
      assert w'.used == x.used;
      assert w'.ino[i].addrs == x.ino[i].addrs;
      assert w'.ino == x.ino;
    }
  }

  /** The step over entry j of the indirect block. */
  lemma FreeingEntry(v: Vol, owner: Owner, i: nat, j: nat)
    requires Inv(v, owner) && i < |v.ino| && j < NINDIRECT && v.ino[i].addrs[NDIRECT] != 0
    ensures var w, ind := Freeing(v, owner, i, NDIRECT, j), v.ino[i].addrs[NDIRECT];
            && Shape(w) && 0 <= ind < v.sb.size
            && var a := Word(w.blk[ind], j);
            && (a != 0 ==> a < v.sb.size && w.used[a])
            && (a == 0 ==> Freeing(v, owner, i, NDIRECT, j + 1) == w)
            && (a != 0 ==> Freeing(v, owner, i, NDIRECT, j + 1) == w.(used := w.used[a := false]))
  {
    UsedRange(v, owner, Ptr(i, NDIRECT));
    var ind := v.ino[i].addrs[NDIRECT];
    assert At(v, Ptr(i, NDIRECT)) == ind;
    var a := At(v, Entry(i, j));
    var w, w' := Freeing(v, owner, i, NDIRECT, j), Freeing(v, owner, i, NDIRECT, j + 1);
    forall b | 0 <= b < |v.used|
      ensures w'.used[b] == (w.used[b] && (b != a || a == 0))
    {
      if b in owner {
        assert At(v, owner[b]) == b;
      }
    }
    if a == 0 {
      assert w'.used == w.used;
    } else {
      assert w'.used == w.used[a := false];
    }
    assert w'.ino == w.ino;
  }

  lemma FreeingNoIndirect(v: Vol, owner: Owner, i: nat)
    requires Inv(v, owner) && i < |v.ino| && v.ino[i].addrs[NDIRECT] == 0
    ensures Freeing(v, owner, i, NDIRECT + 1, NINDIRECT) == Freeing(v, owner, i, NDIRECT, 0)
  {
    var w, w' := Freeing(v, owner, i, NDIRECT, 0), Freeing(v, owner, i, NDIRECT + 1, NINDIRECT);
    forall b | 0 <= b < |v.used|
      ensures w'.used[b] == w.used[b]
    {
      if b in owner {
        assert At(v, owner[b]) == b;
      }
    }
    assert w'.used == w.used;
    assert w'.ino[i].addrs == w.ino[i].addrs;
    assert w'.ino == w.ino;
  }

  lemma FreeingAll(v: Vol, owner: Owner, i: nat)
    requires Inv(v, owner) && i < |v.ino|
    ensures var w := Freeing(v, owner, i, NDIRECT + 1, NINDIRECT);
            w.(ino := w.ino[i := w.ino[i].(size := 0)]) == Truncated(v, owner, i)
  {
    var w, t := Freeing(v, owner, i, NDIRECT + 1, NINDIRECT), Truncated(v, owner, i);
    forall b | 0 <= b < |v.used|
      ensures w.used[b] == t.used[b]
    {
      if b in owner {
        assert At(v, owner[b]) == b;
      }
    }
    assert w.used == t.used;
    assert w.ino[i].addrs == t.ino[i].addrs;
    assert w.ino[i := w.ino[i].(size := 0)] == t.ino;
  }

  lemma FreeingShape(v: Vol, owner: Owner, i: nat, k: nat, j: nat)
    requires Inv(v, owner) && i < |v.ino| && |v.ino[i].addrs| == NDIRECT + 1 && k <= NDIRECT + 1
    ensures var w := Freeing(v, owner, i, k, j); |w.used| == |v.used| == v.sb.size && w.blk == v.blk
  {
  }

  /** How many blocks itrunc has given back when it is past pointer k. */
  lemma {:induction false} PointersGiven(v: Vol, owner: Owner, i: nat, k: nat)
    requires Inv(v, owner) && i < |v.ino| && |v.ino[i].addrs| == NDIRECT + 1 && k <= NDIRECT
    ensures FreeCount(Freeing(v, owner, i, k, 0).used) == FreeCount(v.used) + k - Missing(v, i, 0, k)
  {
    hide Inv, Freeing, FreeCount, Shape;
    if k == 0 {
      FreeingNothing(v, owner, i);
    } else {
      PointersGiven(v, owner, i, k - 1);
      FreeingPtr(v, owner, i, k - 1, 0);
      FreeingShape(v, owner, i, k - 1, 0);
      var w, a := Freeing(v, owner, i, k - 1, 0), v.ino[i].addrs[k - 1];
      if a != 0 {
        FreeCountGive(w.used, a);
      }
    }
  }

  lemma {:induction false} EntriesGiven(v: Vol, owner: Owner, i: nat, j: nat)
    requires Inv(v, owner) && i < |v.ino| && |v.ino[i].addrs| == NDIRECT + 1 && j <= NINDIRECT
    requires v.ino[i].addrs[NDIRECT] != 0
    ensures FreeCount(Freeing(v, owner, i, NDIRECT, j).used)
         == FreeCount(v.used) + NDIRECT + j - Missing(v, i, 0, NDIRECT + j)
  {
    hide Inv, Freeing, FreeCount, Shape;
    if j == 0 {
      PointersGiven(v, owner, i, NDIRECT);
    } else {
      EntriesGiven(v, owner, i, j - 1);
      FreeingEntry(v, owner, i, j - 1);
      FreeingShape(v, owner, i, NDIRECT, j - 1);
      IndirectThere(v, owner, i);
      var w, ind := Freeing(v, owner, i, NDIRECT, j - 1), v.ino[i].addrs[NDIRECT];
      var a := Word(w.blk[ind], j - 1);
      assert a == Addr(v, i, NDIRECT + j - 1);
      if a != 0 {
        FreeCountGive(w.used, a);
      }
    }
  }

  lemma IndirectThere(v: Vol, owner: Owner, i: nat)
    requires Inv(v, owner) && i < |v.ino| && |v.ino[i].addrs| == NDIRECT + 1 && v.ino[i].addrs[NDIRECT] != 0
    ensures var ind := v.ino[i].addrs[NDIRECT]; 0 < ind < |v.blk| && |v.blk[ind]| == BSIZE
  {
    UsedRange(v, owner, Ptr(i, NDIRECT));
  }

  /** Without an indirect block there is nothing past the direct pointers. */
  lemma {:induction false} NoEntries(v: Vol, i: nat, j: nat)
    requires At(v, Ptr(i, NDIRECT)) == 0
    ensures Missing(v, i, 0, NDIRECT + j) == Missing(v, i, 0, NDIRECT) + j
  {
    if j == 0 {
    } else {
      NoEntries(v, i, j - 1);
      assert Addr(v, i, NDIRECT + j - 1) == 0;
    }
  }

  /** itrunc gives back exactly the blocks the file has, and its indirect block. */
  lemma TruncatedGives(v: Vol, owner: Owner, i: nat)
    requires Inv(v, owner) && i < |v.ino|
    ensures FreeCount(Truncated(v, owner, i).used)
         == FreeCount(v.used) + MAXFILE - Missing(v, i, 0, MAXFILE) + if At(v, Ptr(i, NDIRECT)) != 0 then 1 else 0
  {
    hide Inv, Freeing, FreeCount, Shape, Truncated, Missing;
    Pointers(v, owner, i);
    FreeingAll(v, owner, i);
    if v.ino[i].addrs[NDIRECT] == 0 {
      FreeingNoIndirect(v, owner, i);
      PointersGiven(v, owner, i, NDIRECT);
      NoEntries(v, i, NINDIRECT);
    } else {
      EntriesGiven(v, owner, i, NINDIRECT);
      FreeingPtr(v, owner, i, NDIRECT, NINDIRECT);
      FreeingShape(v, owner, i, NDIRECT, NINDIRECT);
      FreeCountGive(Freeing(v, owner, i, NDIRECT, NINDIRECT).used, v.ino[i].addrs[NDIRECT]);
    }
  }

  lemma Pointers(v: Vol, owner: Owner, i: nat)
    requires Inv(v, owner) && i < |v.ino|
    ensures |v.ino[i].addrs| == NDIRECT + 1
  {
  }

  function Resized(v: Vol, i: nat, size: int): Vol
    requires i < |v.ino|
  {
    v.(ino := v.ino[i := v.ino[i].(size := size)])
  }

  lemma ResizedAt(v: Vol, i: nat, size: int)
    requires i < |v.ino|
    ensures forall s :: At(Resized(v, i, size), s) == At(v, s)
    ensures forall m, k :: ByteAt(Resized(v, i, size), m, k) == ByteAt(v, m, k)
  {
  }

  lemma LoggedResized(v0: Vol, v1: Vol, v: Vol, i: nat, n: int, l: set<int>, l': set<int>)
    requires Logged(v0, v1, l) && l <= l' && i < |v1.ino| && (v == v1 || v == Resized(v1, i, n))
    ensures Logged(v0, v, l')
  {
  }

  /** The state after writei's loop and its size update. */
  lemma WriteDone(v0: Vol, o0: Owner, v1: Vol, v: Vol, owner: Owner, i: nat, off: nat, src: seq<byte>)
    requires Inv(v0, o0) && i < |v0.ino| && off <= v0.ino[i].size && off + |src| <= MAXBYTES
    requires Progress(v0, v1, owner, i, off, src, |src|) && i < |v1.ino|
    requires v == if |src| > 0 && off + |src| > v0.ino[i].size then Resized(v1, i, off + |src|) else v1
    ensures Inv(v, owner) && v.sb == v0.sb && |v.ino| == |v0.ino|
    ensures v.ino[i] == v0.ino[i].(size := v.ino[i].size, addrs := v.ino[i].addrs)
    ensures Content(v, i) == Splice(Content(v0, i), off, src)
    ensures forall m :: 0 <= m < |v.ino| && m != i ==> v.ino[m] == v0.ino[m] && Content(v, m) == Content(v0, m)
  {
    hide Inv, Progress, Content, Splice, Resized;
    WriteDoneInv(v0, o0, v1, v, owner, i, off, src);
    WriteDoneShape(v0, o0, v1, v, owner, i, off, src);
    WriteDoneContent(v0, o0, v1, v, owner, i, off, src);
    forall m | 0 <= m < |v.ino| && m != i
      ensures Content(v, m) == Content(v0, m)
    {
      SameContent(v0, v, m);
    }
  }

  lemma SameContent(v0: Vol, v: Vol, m: nat)
    requires m < |v0.ino| && m < |v.ino| && v.ino[m] == v0.ino[m] && forall k :: ByteAt(v, m, k) == ByteAt(v0, m, k)
    ensures Content(v, m) == Content(v0, m)
  {
  }

  lemma WriteDoneInv(v0: Vol, o0: Owner, v1: Vol, v: Vol, owner: Owner, i: nat, off: nat, src: seq<byte>)
    requires Inv(v0, o0) && i < |v0.ino| && off <= v0.ino[i].size && off + |src| <= MAXBYTES
    requires Progress(v0, v1, owner, i, off, src, |src|) && i < |v1.ino|
    requires v == if |src| > 0 && off + |src| > v0.ino[i].size then Resized(v1, i, off + |src|) else v1
    ensures Inv(v, owner)
  {
    ResizedAt(v1, i, off + |src|);
    assert forall s :: At(v, s) == At(v1, s);
    WriteDoneBacked(v0, o0, v1, v, owner, i, off, src);
  }

  lemma WriteDoneShape(v0: Vol, o0: Owner, v1: Vol, v: Vol, owner: Owner, i: nat, off: nat, src: seq<byte>)
    requires Inv(v0, o0) && i < |v0.ino| && off <= v0.ino[i].size && off + |src| <= MAXBYTES
    requires Progress(v0, v1, owner, i, off, src, |src|) && i < |v1.ino|
    requires v == if |src| > 0 && off + |src| > v0.ino[i].size then Resized(v1, i, off + |src|) else v1
    ensures v.sb == v0.sb && |v.ino| == |v0.ino|
    ensures v.ino[i] == v0.ino[i].(size := v.ino[i].size, addrs := v.ino[i].addrs)
    ensures forall m :: 0 <= m < |v.ino| && m != i ==> v.ino[m] == v0.ino[m]
    ensures forall m, k :: m != i ==> ByteAt(v, m, k) == ByteAt(v0, m, k)
  {
    hide Owned, Shape;
    ResizedAt(v1, i, off + |src|);
  }

  lemma WriteDoneContent(v0: Vol, o0: Owner, v1: Vol, v: Vol, owner: Owner, i: nat, off: nat, src: seq<byte>)
    requires Inv(v0, o0) && i < |v0.ino| && off <= v0.ino[i].size && off + |src| <= MAXBYTES
    requires Progress(v0, v1, owner, i, off, src, |src|) && i < |v1.ino|
    requires v == if |src| > 0 && off + |src| > v0.ino[i].size then Resized(v1, i, off + |src|) else v1
    ensures i < |v.ino| && Content(v, i) == Splice(Content(v0, i), off, src)
  {
    hide Owned, Shape;
    assert src[..|src|] == src;
    assert Backed(v0, i);
    ResizedAt(v1, i, off + |src|);
  }

  lemma InvParts(v: Vol, owner: Owner, i: nat)
    requires Inv(v, owner) && i < |v.ino|
    ensures Shape(v) && Owned(v, owner) && Backed(v, i)
  {
  }

  lemma ProgressSize(v0: Vol, v: Vol, owner: Owner, i: nat, off: nat, src: seq<byte>)
    requires i < |v0.ino| && Progress(v0, v, owner, i, off, src, |src|)
    ensures |v.ino| == |v0.ino| && v.ino[i].size == v0.ino[i].size
    ensures off + |src| <= v0.ino[i].size ==> v.ino == v0.ino
  {
  }

  lemma WriteDoneBacked(v0: Vol, o0: Owner, v1: Vol, v: Vol, owner: Owner, i: nat, off: nat, src: seq<byte>)
    requires Inv(v0, o0) && i < |v0.ino| && off <= v0.ino[i].size && off + |src| <= MAXBYTES
    requires Progress(v0, v1, owner, i, off, src, |src|)
    requires v == if |src| > 0 && off + |src| > v0.ino[i].size then Resized(v1, i, off + |src|) else v1
    requires forall s :: At(v, s) == At(v1, s)
    ensures forall m :: 0 <= m < |v.ino| ==> Backed(v, m)
  {
    forall m | 0 <= m < |v.ino|
      ensures Backed(v, m)
    {
      assert Backed(v0, m);
      forall bn | 0 <= bn && bn * BSIZE < v.ino[m].size
        ensures Addr(v, m, bn) != 0
      {
        if bn * BSIZE < v0.ino[m].size {
          assert Addr(v0, m, bn) != 0;
        } else {
          assert off / BSIZE <= bn;
          assert Addr(v1, i, bn) != 0;
        }
      }
    }
  }

  /** How far writei's loop has got after `tot` bytes. */
  ghost predicate Progress(v0: Vol, v: Vol, owner: Owner, i: nat, off: nat, src: seq<byte>, tot: nat) {
    && tot <= |src| && Written(v0, v, owner, i, off, src[..tot])
    && (forall bn :: off / BSIZE <= bn && bn * BSIZE < off + tot ==> Addr(v, i, bn) != 0)
    && (off + tot <= v0.ino[i].size ==> v.ino == v0.ino)
  }

  lemma ProgressStart(v: Vol, owner: Owner, i: nat, off: nat, src: seq<byte>)
    requires Shape(v) && Owned(v, owner) && Backed(v, i) && off <= v.ino[i].size
    ensures Progress(v, v, owner, i, off, src, 0)
  {
  }

  lemma ProgressStep(v0: Vol, v1: Vol, o1: Owner, v: Vol, owner: Owner, i: nat, off: nat, src: seq<byte>, tot: nat,
                     m: nat)
    requires Shape(v0) && Progress(v0, v1, o1, i, off, src, tot) && Backed(v0, i) && Grown(v0, v1)
    requires tot < |src| && m == Min(|src| - tot, BSIZE - (off + tot) % BSIZE)
    requires Written(v1, v, owner, i, off + tot, src[tot..tot + m]) && Addr(v, i, (off + tot) / BSIZE) != 0
    requires Addr(v1, i, (off + tot) / BSIZE) != 0 ==> v.ino == v1.ino
    ensures Progress(v0, v, owner, i, off, src, tot + m)
  {
    WrittenAppend(v0, v1, o1, v, owner, i, off, src[..tot], src[tot..tot + m]);
    assert src[..tot] + src[tot..tot + m] == src[..tot + m];
    var cur := off + tot;
    assert cur == cur / BSIZE * BSIZE + cur % BSIZE;
    forall bn | off / BSIZE <= bn && bn * BSIZE < off + tot + m
      ensures Addr(v, i, bn) != 0
    {
      if bn != cur / BSIZE {
        assert bn * BSIZE < cur;
        assert Addr(v1, i, bn) != 0;
      }
    }
    if off + tot + m <= v0.ino[i].size {
      assert cur / BSIZE * BSIZE < v0.ino[i].size;
      assert Addr(v0, i, cur / BSIZE) != 0;
    }
  }

  /** After p turns writei's loop is at a block boundary (unless it is done); at
      most q of the blocks were new, and an unaligned first block never is. */
  predicate Turns(off: int, n: int, tot: int, p: int, q: int) {
    && 0 <= p && (p == 0 ==> tot == 0)
    && (p > 0 && tot < n ==> off + tot == (off / BSIZE + p) * BSIZE)
    && (p > 0 ==> tot > 0 && (off / BSIZE + p - 1) * BSIZE < off + tot)
    && 0 <= q <= p && (p > 0 && off % BSIZE != 0 ==> q <= p - 1)
  }

  lemma TurnsStep(v0: Vol, v1: Vol, i: nat, off: nat, n: nat, tot: nat, p: int, q: int)
    requires Turns(off, n, tot, p, q) && tot < n && Backed(v0, i) && Grown(v0, v1) && off <= v0.ino[i].size
    ensures var q' := q + if Addr(v1, i, (off + tot) / BSIZE) == 0 then 1 else 0;
            Turns(off, n, tot + Min(n - tot, BSIZE - (off + tot) % BSIZE), p + 1, q')
  {
    if p == 0 && off % BSIZE != 0 {
      assert off / BSIZE * BSIZE < off;
      assert Addr(v0, i, off / BSIZE) != 0;
    }
  }

  lemma TurnsBound(off: nat, n: nat, p: int, q: int)
    requires Turns(off, n, n, p, q)
    ensures p + q + 2 <= LogBound(off, n)
  {
    if p > 0 {
      assert (p - 1) * BSIZE < off % BSIZE + n;
      assert p <= Touched(off, n);
    }
  }

  /** How many blocks n bytes from `off` touch. */
  function Touched(off: nat, n: nat): int {
    (off % BSIZE + n + BSIZE - 1) / BSIZE
  }

  /** The most blocks writei can log: data blocks, a bit map block for each block
      that starts at or after `off` (an earlier one is there already), the indirect
      block and its bit map block. */
  function LogBound(off: nat, n: nat): int {
    2 * Touched(off, n) + 2 - if off % BSIZE != 0 && n > 0 then 1 else 0
  }

  function IndirectSet(v: Vol, i: nat): set<int> {
    if At(v, Ptr(i, NDIRECT)) != 0 then {At(v, Ptr(i, NDIRECT))} else {}
  }

  /** The data blocks and bit map blocks logged in p turns, q of them on blocks
      that were new. */
  datatype Tally = Tally(data: set<int>, bits: set<int>, p: int, q: int)

  /** After p turns: at most p data blocks, q bit map blocks for them, the indirect
      block, and its bit map block if it is new. */
  ghost predicate Counted(v0: Vol, v: Vol, i: nat, off: nat, n: nat, tot: nat, l0: set<int>, l: set<int>, t: Tally) {
    && l <= l0 + t.data + t.bits + IndirectSet(v, i)
    && |t.data| <= t.p
    && |t.bits| <= t.q + (if At(v0, Ptr(i, NDIRECT)) == 0 && At(v, Ptr(i, NDIRECT)) != 0 then 1 else 0)
    && Turns(off, n, tot, t.p, t.q)
  }

  lemma CountedStart(v: Vol, i: nat, off: nat, n: nat, l: set<int>)
    ensures Counted(v, v, i, off, n, 0, l, l, Tally({}, {}, 0, 0))
  {
  }

  lemma CountedStep(v0: Vol, v: Vol, v': Vol, i: nat, off: nat, n: nat, tot: nat,
                    l0: set<int>, l: set<int>, l': set<int>, t: Tally) returns (t': Tally)
    requires Grown(v0, v) && Grown(v, v') && Backed(v0, i) && off <= v0.ino[i].size && tot < n
    requires Counted(v0, v, i, off, n, tot, l0, l, t) && LogStep(v, v', i, (off + tot) / BSIZE, l, l')
    ensures Counted(v0, v', i, off, n, tot + Min(n - tot, BSIZE - (off + tot) % BSIZE), l0, l', t')
  {
    var bn := (off + tot) / BSIZE;
    var a, ind := Addr(v', i, bn), At(v', Ptr(i, NDIRECT));
    TurnsStep(v0, v, i, off, n, tot, t.p, t.q);
    if Addr(v, i, bn) != 0 {
      t' := Tally(t.data + {a}, t.bits, t.p + 1, t.q);
    } else if bn >= NDIRECT && At(v, Ptr(i, NDIRECT)) == 0 {
      t' := Tally(t.data + {a}, t.bits + {BitBlock(v'.sb, a)} + {BitBlock(v'.sb, ind)}, t.p + 1, t.q + 1);
    } else {
      t' := Tally(t.data + {a}, t.bits + {BitBlock(v'.sb, a)}, t.p + 1, t.q + 1);
    }
  }

  lemma CountedTotal(v0: Vol, v: Vol, i: nat, off: nat, n: nat, l0: set<int>, l: set<int>, t: Tally)
    requires Counted(v0, v, i, off, n, n, l0, l, t)
    ensures |l| <= |l0| + LogBound(off, n)
  {
    CardSubset(l, l0 + t.data + t.bits + IndirectSet(v, i));
    TurnsBound(off, n, t.p, t.q);
  }

  /** The blocks one turn of writei's loop may log: the data block; if it is new,
      its bit map block; if it is new and indirect, the indirect block; and if that
      is new too, the bit map block of the indirect block. */
  ghost predicate LogStep(v: Vol, v': Vol, i: nat, bn: nat, l: set<int>, l': set<int>) {
    var a, ind := Addr(v', i, bn), At(v', Ptr(i, NDIRECT));
    if Addr(v, i, bn) != 0 then l' <= l + {a} && ind == At(v, Ptr(i, NDIRECT))
    else if bn < NDIRECT then l' <= l + {a, BitBlock(v'.sb, a)} && ind == At(v, Ptr(i, NDIRECT))
    else ind != 0 && if At(v, Ptr(i, NDIRECT)) != 0 then l' <= l + {a, BitBlock(v'.sb, a), ind}
                     else l' <= l + {a, BitBlock(v'.sb, a), ind, BitBlock(v'.sb, ind)}
  }

  /** Storing into the mapped block logs only that block, and moves no block. */
  lemma PieceLogged(v0: Vol, v: Vol, v': Vol, i: nat, bn: nat, l0: set<int>, l: set<int>, b: int)
    requires Mapped(v0, v, i, bn, bn + 1) && LogStep(v0, v, i, bn, l0, l) && b == Addr(v, i, bn) && v'.sb == v.sb
    requires forall s :: At(v', s) == At(v, s)
    ensures Mapped(v0, v', i, bn, bn + 1) && LogStep(v0, v', i, bn, l0, l + {b})
  {
    forall k: int ensures Addr(v', i, k) == Addr(v, i, k) {
      assert At(v', SlotOf(i, k)) == At(v, SlotOf(i, k));
    }
  }

  lemma DirectMapped(v0: Vol, v: Vol, i: nat, bn: nat)
    requires bn < NDIRECT && OnlySlot(v0, v, Ptr(i, bn)) && At(v, Ptr(i, bn)) != 0
    ensures Mapped(v0, v, i, bn, bn + 1)
  {
    forall k: int | k != bn ensures Addr(v, i, k) == Addr(v0, i, k) {
      assert At(v, SlotOf(i, k)) == At(v0, SlotOf(i, k));
    }
  }

  lemma SameMapped(v: Vol, i: nat, bn: nat)
    requires Addr(v, i, bn) != 0
    ensures Mapped(v, v, i, bn, bn + 1)
  {
  }

  /** The two allocations bmap may do behind the indirect pointer. */
  lemma IndirectMapped(v0: Vol, v1: Vol, v: Vol, i: nat, bn: nat)
    requires NDIRECT <= bn < MAXFILE && OnlySlot(v0, v1, Ptr(i, NDIRECT)) && OnlySlot(v1, v, Entry(i, bn - NDIRECT))
    requires At(v, Entry(i, bn - NDIRECT)) != 0
    ensures Mapped(v0, v, i, bn, bn + 1) && At(v1, Entry(i, bn - NDIRECT)) == Addr(v0, i, bn)
    ensures At(v, Ptr(i, NDIRECT)) == At(v1, Ptr(i, NDIRECT))
  {
    forall k: int | k != bn ensures Addr(v, i, k) == Addr(v0, i, k) {
      assert At(v, SlotOf(i, k)) == At(v1, SlotOf(i, k));
      assert At(v1, SlotOf(i, k)) == At(v0, SlotOf(i, k));
    }
  }

  lemma IndirectLogged(v0: Vol, v1: Vol, v: Vol, i: nat, bn: nat, l0: set<int>, l1: set<int>, l: set<int>)
    requires NDIRECT <= bn < MAXFILE && v1.sb == v0.sb == v.sb && At(v1, Ptr(i, NDIRECT)) != 0
    requires At(v, Ptr(i, NDIRECT)) == At(v1, Ptr(i, NDIRECT))
    requires At(v0, Ptr(i, NDIRECT)) != 0 ==> v1 == v0 && l1 == l0
    requires l1 <= l0 + {BitBlock(v.sb, At(v, Ptr(i, NDIRECT))), At(v, Ptr(i, NDIRECT))}
    requires At(v1, Entry(i, bn - NDIRECT)) == Addr(v0, i, bn)
    requires Addr(v0, i, bn) != 0 ==> v == v1 && l == l1
    requires l <= l1 + {BitBlock(v.sb, Addr(v, i, bn)), Addr(v, i, bn), At(v, Ptr(i, NDIRECT))}
    requires Addr(v0, i, bn) != 0 ==> At(v0, Ptr(i, NDIRECT)) != 0
    ensures LogStep(v0, v, i, bn, l0, l)
  {
  }

  lemma AllocSameBytes(v: Vol, owner: Owner, v': Vol, s: Slot, b: nat)
    requires Shape(v) && Owned(v, owner) && Shape(v') && b < |v.used| && !v.used[b]
    requires |v.blk| == |v'.blk| && v'.blk[b] == Zeros(BSIZE) && At(v, s) == 0
    requires forall t :: At(v', t) == if t == s then b else At(v, t)
    requires forall c :: 0 <= c < |v.blk| && c != b && v.blk[c] != v'.blk[c] ==> exists m :: At(v, Ptr(m, NDIRECT)) == c
    ensures SameBytes(v, v')
  {
    forall m, n
      ensures ByteAt(v', m, n) == ByteAt(v, m, n)
    {
      AllocBytes(v, owner, v', s, b, m, n);
    }
  }

  lemma PointerFilled(v: Vol, owner: Owner, i: nat, k: nat, b: nat)
    requires Shape(v) && Owned(v, owner) && b < v.sb.size && !v.used[b]
    requires i < |v.ino| && k <= NDIRECT && At(v, Ptr(i, k)) == 0
    ensures var v' := SetPtr(Allocate(v, b), i, k, b);
            && Extended(v, v', owner[b := Ptr(i, k)], i) && At(v', Ptr(i, k)) == b != 0
            && (k != NDIRECT ==> At(v', Ptr(i, NDIRECT)) == At(v, Ptr(i, NDIRECT))) && OnlySlot(v, v', Ptr(i, k))
  {
    AllocPtr(v, owner, i, k, b);
    AllocSameBytes(v, owner, SetPtr(Allocate(v, b), i, k, b), Ptr(i, k), b);
  }

  lemma EntryFilled(v: Vol, owner: Owner, i: nat, j: nat, b: nat)
    requires Shape(v) && Owned(v, owner) && b < v.sb.size && !v.used[b]
    requires i < |v.ino| && j < NINDIRECT && At(v, Ptr(i, NDIRECT)) != 0 && At(v, Entry(i, j)) == 0
    ensures var ind := At(v, Ptr(i, NDIRECT));
            && ind < v.sb.size && ind != b
            && var v' := SetBlock(Allocate(v, b), ind, PutWord(v.blk[ind], j, b));
      && Extended(v, v', owner[b := Entry(i, j)], i)
      && At(v', Entry(i, j)) == b != 0 && At(v', Ptr(i, NDIRECT)) == ind
            && OnlySlot(v, v', Entry(i, j))
  {
    AllocEntry(v, owner, i, j, b);
    var ind := At(v, Ptr(i, NDIRECT));
    var v' := SetBlock(Allocate(v, b), ind, PutWord(v.blk[ind], j, b));
    assert forall c :: 0 <= c < |v.blk| && c != b && v.blk[c] != v'.blk[c] ==> At(v, Ptr(i, NDIRECT)) == c;
    AllocSameBytes(v, owner, v', Entry(i, j), b);
  }
}
