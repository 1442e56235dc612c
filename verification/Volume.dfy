/** The disk as fs.c sees it: blocks, the free bit map and inodes, with the
    direct/indirect block map and the question of who owns which block. */
module Volume {

  const BSIZE := 512
  const NDIRECT := 12
  const NINDIRECT := BSIZE / 4
  const MAXFILE := NDIRECT + NINDIRECT
  const MAXBYTES := MAXFILE * BSIZE
  const WORD := 0x1_0000_0000

  newtype byte = x: int | 0 <= x < 256
  type Block = seq<byte>

  // ---------------------------------------------------------------- words inside a block

  function Decode(b: seq<byte>): (w: nat)
    requires |b| == 4
    ensures w < WORD
  {
    b[0] as int + 0x100 * b[1] as int + 0x1_0000 * b[2] as int + 0x100_0000 * b[3] as int
  }

  function Encode(w: nat): (b: seq<byte>)
    requires w < WORD
    ensures |b| == 4
  {
    [(w % 0x100) as byte, (w / 0x100 % 0x100) as byte, (w / 0x1_0000 % 0x100) as byte, (w / 0x100_0000) as byte]
  }

  lemma DecodeEncode(w: nat)
    requires w < WORD
    ensures Decode(Encode(w)) == w
  {
    var q1, q2 := w / 0x100, w / 0x1_0000;
    assert q2 == q1 / 0x100 && w / 0x100_0000 == q2 / 0x100;
  }

  /** The j-th 32-bit word of a block, as `((uint*)bp->data)[j]` reads it. */
  function Word(b: Block, j: nat): (w: nat)
    requires |b| == BSIZE && j < NINDIRECT
    ensures w < WORD
  {
    Decode(b[4 * j..4 * j + 4])
  }

  function PutWord(b: Block, j: nat, w: nat): (r: Block)
    requires |b| == BSIZE && j < NINDIRECT && w < WORD
    ensures |r| == BSIZE
  {
    b[..4 * j] + Encode(w) + b[4 * j + 4..]
  }

  lemma WordOfPutWord(b: Block, j: nat, w: nat, k: nat)
    requires |b| == BSIZE && j < NINDIRECT && k < NINDIRECT && w < WORD
    ensures Word(PutWord(b, j, w), k) == if k == j then w else Word(b, k)
  {
    var r := PutWord(b, j, w);
    if k == j {
      assert r[4 * k..4 * k + 4] == Encode(w);
      DecodeEncode(w);
    } else {
      assert r[4 * k..4 * k + 4] == b[4 * k..4 * k + 4];
    }
  }

  function Zeros(n: nat): (b: Block)
    ensures |b| == n && forall k :: 0 <= k < n ==> b[k] == 0
  {
    seq(n, _ => 0)
  }

  // ---------------------------------------------------------------- volumes

  /** `datastart` is the first data block; everything below holds the boot block,
      superblock, log, inodes and bit map. */
  datatype Super = Super(size: int, datastart: int, inodestart: nat, bmapstart: nat)

  datatype Inode = Inode(kind: int, major: int, minor: int, nlink: int, size: int, addrs: seq<int>)

  datatype Vol = Vol(sb: Super, blk: seq<Block>, used: seq<bool>, ino: seq<Inode>)

  predicate Shape(v: Vol) {
    && |v.blk| == v.sb.size == |v.used| && 1 <= v.sb.datastart <= v.sb.size < WORD
    && (forall b :: 0 <= b < |v.blk| ==> |v.blk[b]| == BSIZE)
    && (forall i :: 0 <= i < |v.ino| ==> |v.ino[i].addrs| == NDIRECT + 1)
  }

  /** A place that can name a block: a pointer in an inode (k == NDIRECT is the
      pointer to the indirect block) or an entry of an inode's indirect block. */
  datatype Slot = Ptr(i: int, k: int) | Entry(i: int, j: int)

  function Pointer(v: Vol, i: int, k: int): (b: int) {
    if 0 <= i < |v.ino| && 0 <= k < |v.ino[i].addrs| then v.ino[i].addrs[k] else 0
  }

  /** The block a slot names; 0 when it names none or does not exist. */
  function At(v: Vol, s: Slot): (b: int) {
    match s
    case Ptr(i, k) => Pointer(v, i, k)
    case Entry(i, j) =>
      var ind := Pointer(v, i, NDIRECT);
      if 0 < ind < |v.blk| && |v.blk[ind]| == BSIZE && 0 <= j < NINDIRECT then Word(v.blk[ind], j) else 0
  }

  function SlotOf(i: int, bn: int): Slot {
    if bn < NDIRECT then Ptr(i, bn) else Entry(i, bn - NDIRECT)
  }

  /** The address of the bn-th block of file i; 0 when unallocated. */
  function Addr(v: Vol, i: int, bn: int): int {
    At(v, SlotOf(i, bn))
  }

  type Owner = map<int, Slot>

  /** The bit of a data block is set exactly when one slot names the block, and
      `owner` says which; the bits of all metadata blocks are set. */
  ghost predicate Owned(v: Vol, owner: Owner) {
    && (forall s :: At(v, s) != 0 ==> At(v, s) in owner && owner[At(v, s)] == s)
    && (forall b :: b in owner ==> 0 < v.sb.datastart <= b < |v.used| && v.used[b] && At(v, owner[b]) == b)
    && (forall b :: 0 < v.sb.datastart <= b < |v.used| && v.used[b] ==> b in owner)
    && (forall b :: 0 <= b < v.sb.datastart && b < |v.used| ==> v.used[b])
  }

  /** Block ownership in terms of slots alone. */
  lemma UsedIffNamedOnce(v: Vol, owner: Owner, b: nat)
    requires Shape(v) && Owned(v, owner) && v.sb.datastart <= b < v.sb.size
    ensures v.used[b] <==> exists s :: At(v, s) == b
    ensures forall s, t :: At(v, s) == b && At(v, t) == b ==> s == t
  {
    if v.used[b] {
      assert At(v, owner[b]) == b;
    }
  }

  lemma UsedRange(v: Vol, owner: Owner, s: Slot)
    requires Shape(v) && Owned(v, owner) && At(v, s) != 0
    ensures v.sb.datastart <= At(v, s) < v.sb.size && v.used[At(v, s)]
  {
  }

  // ---------------------------------------------------------------- file contents

  /** Byte k of file i, reading a hole as zero. */
  function ByteAt(v: Vol, i: int, k: int): byte {
    var a := Addr(v, i, k / BSIZE);
    if 0 < a < |v.blk| && |v.blk[a]| == BSIZE then v.blk[a][k % BSIZE] else 0
  }

  function Size(v: Vol, i: nat): nat
    requires i < |v.ino|
  {
    if v.ino[i].size < 0 then 0 else v.ino[i].size
  }

  function Content(v: Vol, i: nat): (c: seq<byte>)
    requires i < |v.ino|
    ensures |c| == Size(v, i) && forall k :: 0 <= k < |c| ==> c[k] == ByteAt(v, i, k)
  {
    seq(Size(v, i), k => ByteAt(v, i, k))
  }

  /** Every block below the file size is allocated. */
  ghost predicate Backed(v: Vol, i: nat) {
    && i < |v.ino| && 0 <= v.ino[i].size <= MAXBYTES
    && (forall bn :: 0 <= bn && bn * BSIZE < v.ino[i].size ==> Addr(v, i, bn) != 0)
  }

  ghost predicate Inv(v: Vol, owner: Owner) {
    Shape(v) && Owned(v, owner) && forall i :: 0 <= i < |v.ino| ==> Backed(v, i)
  }

  // ---------------------------------------------------------------- allocation

  function SetPtr(v: Vol, i: nat, k: nat, b: nat): Vol
    requires i < |v.ino| && k < |v.ino[i].addrs|
  {
    v.(ino := v.ino[i := v.ino[i].(addrs := v.ino[i].addrs[k := b])])
  }

  function SetBlock(v: Vol, b: nat, data: Block): Vol
    requires b < |v.blk|
  {
    v.(blk := v.blk[b := data])
  }

  /** balloc's effect: the bit is set and the block is zeroed. */
  function Allocate(v: Vol, b: nat): Vol
    requires b < |v.used| && b < |v.blk|
  {
    v.(used := v.used[b := true], blk := v.blk[b := Zeros(BSIZE)])
  }

  /** Allocating b and storing it in an empty inode pointer. */
  lemma AllocPtr(v: Vol, owner: Owner, i: nat, k: nat, b: nat)
    requires Shape(v) && Owned(v, owner) && b < v.sb.size && !v.used[b]
    requires i < |v.ino| && k <= NDIRECT && At(v, Ptr(i, k)) == 0
    ensures var v' := SetPtr(Allocate(v, b), i, k, b);
            && Shape(v') && Owned(v', owner[b := Ptr(i, k)])
            && (forall s :: At(v', s) == if s == Ptr(i, k) then b else At(v, s))
  {
    var v' := SetPtr(Allocate(v, b), i, k, b);
    forall s
      ensures At(v', s) == if s == Ptr(i, k) then b else At(v, s)
    {
      AllocPtrAt(v, owner, i, k, b, s);
    }
  }

  lemma ZeroWords(j: nat)
    requires j < NINDIRECT
    ensures Word(Zeros(BSIZE), j) == 0
  {
  }

  lemma AllocPtrAt(v: Vol, owner: Owner, i: nat, k: nat, b: nat, s: Slot)
    requires Shape(v) && Owned(v, owner) && b < v.sb.size && !v.used[b]
    requires i < |v.ino| && k <= NDIRECT && At(v, Ptr(i, k)) == 0
    ensures At(SetPtr(Allocate(v, b), i, k, b), s) == if s == Ptr(i, k) then b else At(v, s)
  {
    if s.Entry? && 0 <= s.j < NINDIRECT {
      ZeroWords(s.j);
      if At(v, Ptr(s.i, NDIRECT)) != 0 {
        UsedRange(v, owner, Ptr(s.i, NDIRECT));
      }
    }
  }

  /** Allocating b and storing it in an empty entry of an indirect block. */
  lemma AllocEntry(v: Vol, owner: Owner, i: nat, j: nat, b: nat)
    requires Shape(v) && Owned(v, owner) && b < v.sb.size && !v.used[b]
    requires j < NINDIRECT && At(v, Ptr(i, NDIRECT)) != 0 && At(v, Entry(i, j)) == 0
    ensures var ind := At(v, Ptr(i, NDIRECT));
            && ind < v.sb.size && ind != b
            && var v' := SetBlock(Allocate(v, b), ind, PutWord(v.blk[ind], j, b));
            && Shape(v') && Owned(v', owner[b := Entry(i, j)])
            && (forall s :: At(v', s) == if s == Entry(i, j) then b else At(v, s))
  {
    var ind := At(v, Ptr(i, NDIRECT));
    UsedRange(v, owner, Ptr(i, NDIRECT));
    var v' := SetBlock(Allocate(v, b), ind, PutWord(v.blk[ind], j, b));
    forall s
      ensures At(v', s) == if s == Entry(i, j) then b else At(v, s)
    {
      AllocEntryAt(v, owner, i, j, b, s);
    }
  }

  lemma AllocEntryAt(v: Vol, owner: Owner, i: nat, j: nat, b: nat, s: Slot)
    requires Shape(v) && Owned(v, owner) && b < v.sb.size && !v.used[b]
    requires j < NINDIRECT && At(v, Ptr(i, NDIRECT)) != 0 && At(v, Entry(i, j)) == 0
    ensures var ind := At(v, Ptr(i, NDIRECT));
            && ind < v.sb.size && ind != b
            && At(SetBlock(Allocate(v, b), ind, PutWord(v.blk[ind], j, b)), s) ==
               if s == Entry(i, j) then b else At(v, s)
  {
    UsedRange(v, owner, Ptr(i, NDIRECT));
    if s.Entry? && 0 <= s.j < NINDIRECT && At(v, Ptr(s.i, NDIRECT)) != 0 {
      var ind := At(v, Ptr(s.i, NDIRECT));
      UsedRange(v, owner, Ptr(s.i, NDIRECT));
      if s.i == i {
        WordOfPutWord(v.blk[ind], j, b, s.j);
      } else {
        assert owner[ind] == Ptr(s.i, NDIRECT);
        assert ind != At(v, Ptr(i, NDIRECT));
      }
    }
  }

  /** Block b's contents do not matter to the block map. */
  lemma StoreAt(v: Vol, owner: Owner, b: nat, data: Block, s: Slot)
    requires Shape(v) && Owned(v, owner) && b in owner && |data| == BSIZE
    requires forall i :: owner[b] != Ptr(i, NDIRECT)
    ensures At(SetBlock(v, b, data), s) == At(v, s)
  {
    if s.Entry? && At(v, Ptr(s.i, NDIRECT)) != 0 {
      assert owner[At(v, Ptr(s.i, NDIRECT))] == Ptr(s.i, NDIRECT);
    }
  }

  /** Overwriting a data block changes no address and no ownership. */
  lemma Store(v: Vol, owner: Owner, b: nat, data: Block)
    requires Shape(v) && Owned(v, owner) && b in owner && |data| == BSIZE
    requires forall i :: owner[b] != Ptr(i, NDIRECT)
    ensures var v' := SetBlock(v, b, data);
            Shape(v') && Owned(v', owner) && forall s :: At(v', s) == At(v, s)
  {
    var v' := SetBlock(v, b, data);
    forall s
      ensures At(v', s) == At(v, s)
    {
      StoreAt(v, owner, b, data, s);
    }
  }

  // ---------------------------------------------------------------- effect on file contents

  /** Addresses grew only where there was a hole, and the block put there is zero
      and new: no file changes. */
  lemma AllocBytes(v: Vol, owner: Owner, v': Vol, s: Slot, b: nat, i: int, k: int)
    requires Shape(v) && Owned(v, owner) && Shape(v') && b < |v.used| && !v.used[b]
    requires |v.blk| == |v'.blk| && v'.blk[b] == Zeros(BSIZE) && At(v, s) == 0
    requires forall t :: At(v', t) == if t == s then b else At(v, t)
    requires forall c :: 0 <= c < |v.blk| && c != b && v.blk[c] != v'.blk[c] ==> exists m :: At(v, Ptr(m, NDIRECT)) == c
    ensures ByteAt(v', i, k) == ByteAt(v, i, k)
  {
    var t := SlotOf(i, k / BSIZE);
    var a := At(v, t);
    if t != s && a != 0 {
      UsedRange(v, owner, t);
      assert owner[a] == t;
      assert forall m :: At(v, Ptr(m, NDIRECT)) != a;
    }
  }

  /** Overwriting block bn of file i changes exactly that stretch of that file. */
  lemma StoreBytes(v: Vol, owner: Owner, i: nat, bn: nat, data: Block, i': int, k: int)
    requires Shape(v) && Owned(v, owner) && |data| == BSIZE && Addr(v, i, bn) != 0
    ensures Addr(v, i, bn) in owner && owner[Addr(v, i, bn)] == SlotOf(i, bn)
    ensures Shape(SetBlock(v, Addr(v, i, bn), data))
    ensures ByteAt(SetBlock(v, Addr(v, i, bn), data), i', k) ==
            if i' == i && k / BSIZE == bn then data[k % BSIZE] else ByteAt(v, i', k)
  {
    var b := Addr(v, i, bn);
    assert owner[b] == SlotOf(i, bn);
    StoreAt(v, owner, b, data, SlotOf(i', k / BSIZE));
  }

  // ---------------------------------------------------------------- truncation

  predicate OwnedBy(owner: Owner, b: int, i: int) {
    b in owner && owner[b].i == i
  }

  function Emptied(ip: Inode): Inode {
    ip.(size := 0, addrs := seq(NDIRECT + 1, _ => 0))
  }

  /** The volume with file i emptied and its blocks, and no others, given back. */
  function Truncated(v: Vol, owner: Owner, i: nat): Vol
    requires i < |v.ino|
  {
    v.(used := seq(|v.used|, b requires 0 <= b < |v.used| => v.used[b] && !OwnedBy(owner, b, i)),
       ino := v.ino[i := Emptied(v.ino[i])])
  }

  lemma TruncatedAt(v: Vol, owner: Owner, i: nat, s: Slot)
    requires Shape(v) && i < |v.ino|
    ensures At(Truncated(v, owner, i), s) == if s.i == i then 0 else At(v, s)
  {
  }

  function Disowned(owner: Owner, i: nat): Owner {
    map b | b in owner && owner[b].i != i :: owner[b]
  }

  lemma TruncateInv(v: Vol, owner: Owner, i: nat)
    requires Inv(v, owner) && i < |v.ino|
    ensures Inv(Truncated(v, owner, i), Disowned(owner, i))
    ensures forall m :: 0 <= m < |v.ino| && m != i ==> Content(Truncated(v, owner, i), m) == Content(v, m)
    ensures Content(Truncated(v, owner, i), i) == []
  {
    var v' := Truncated(v, owner, i);
    forall s
      ensures At(v', s) == if s.i == i then 0 else At(v, s)
    {
      TruncatedAt(v, owner, i, s);
    }
    TruncateOwned(v, owner, i);
    forall m | 0 <= m < |v.ino|
      ensures Backed(v', m)
    {
      assert Backed(v, m);
      forall bn | 0 <= bn && bn * BSIZE < v'.ino[m].size
        ensures Addr(v', m, bn) != 0
      {
        assert Addr(v', m, bn) == Addr(v, m, bn);
      }
    }
  }

  lemma TruncateOwned(v: Vol, owner: Owner, i: nat)
    requires Shape(v) && Owned(v, owner) && i < |v.ino|
    requires forall s :: At(Truncated(v, owner, i), s) == if s.i == i then 0 else At(v, s)
    ensures Owned(Truncated(v, owner, i), Disowned(owner, i))
  {
  }
}
