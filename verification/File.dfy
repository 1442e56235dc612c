/** Writing through a file descriptor (file.c): filewrite cuts a write into chunks,
    each its own log transaction. */
module FileLayer {
  import LogRuns
  import RedoLog
  import opened Volume
  import opened Fs

  class File {
    const ip: nat
    var off: int

    constructor (ip: nat)
      ensures this.ip == ip && off == 0
    {
      this.ip := ip;
      off := 0;
    }
  }

  /** A full chunk logs at most MAXOPBLOCKS blocks, and before its last log_write
      (the inode's) at most MAXOPBLOCKS - 1; the bound leaves nothing over. */
  lemma ChunkBound(off: nat, n: nat)
    requires n <= MAXCHUNK
    ensures LogBound(off, n) + 1 <= MAXOPBLOCKS
    ensures LogBound(1, MAXCHUNK) + 1 == MAXOPBLOCKS
  {
    assert Touched(off, n) <= 4;
    assert off % BSIZE == 0 ==> Touched(off, n) <= 3;
    assert Touched(1, MAXCHUNK) == 4;
  }

  /** File i of volume v is file i of v0 with `data` spliced in at `off`; nothing
      else about any file differs. */
  predicate Spliced(v0: Vol, v: Vol, i: nat, off: nat, data: seq<byte>) {
    && i < |v0.ino| && |v.ino| == |v0.ino| && v.ino[i].kind == v0.ino[i].kind
    && off <= Size(v0, i) && Content(v, i) == Splice(Content(v0, i), off, data)
    && (forall m :: 0 <= m < |v.ino| && m != i ==> Content(v, m) == Content(v0, m))
  }

  lemma SplicedNothing(v: Vol, i: nat, off: nat)
    requires i < |v.ino| && off <= Size(v, i)
    ensures Spliced(v, v, i, off, [])
  {
  }

  lemma SplicedSize(v0: Vol, v: Vol, i: nat, off: nat, data: seq<byte>)
    requires Spliced(v0, v, i, off, data)
    ensures Size(v, i) == Max(Size(v0, i), off + |data|)
    ensures i < |v.ino| == |v0.ino| && v.ino[i].kind == v0.ino[i].kind
  {
    assert |Content(v, i)| == Size(v, i) && |Content(v0, i)| == Size(v0, i);
  }

  lemma SplicedTwice(v0: Vol, v1: Vol, v2: Vol, i: nat, off: nat, a: seq<byte>, b: seq<byte>)
    requires Spliced(v0, v1, i, off, a) && Spliced(v1, v2, i, off + |a|, b)
    ensures Spliced(v0, v2, i, off, a + b)
  {
    assert Splice(Splice(Content(v0, i), off, a), off + |a|, b) == Splice(Content(v0, i), off, a + b);
  }

  /** One chunk: begin_op, writei, end_op.  However the bits are spread over the bit
      map, the transaction stays within its budget, with room at every log_write. */
  method WriteChunk(fs: FileSystem, i: nat, src: seq<byte>, off: nat) returns (r: Outcome)
    requires fs.Valid() && i < |fs.v.ino| && fs.v.ino[i].kind != T_DEV && off < WORD && |src| <= MAXCHUNK
    modifies fs
    ensures r.Error? <==> off > Size(old(fs.v), i) || off + |src| > MAXBYTES
    ensures r.Error? ==> fs.v == old(fs.v) && fs.Valid()
    ensures r.Bytes? ==> r.n == |src| && fs.Valid() && Spliced(old(fs.v), fs.v, i, off, src)
    ensures r.Bytes? ==> |fs.log.Blocks()| <= MAXOPBLOCKS && fs.log.Peak() < MAXOPBLOCKS
    ensures !r.ToDevice?
    ensures r.Panic? <==> !r.Error? && Need(old(fs.v), i, off / BSIZE, EndBlock(off, |src|)) > FreeCount(old(fs.v).used)
    ensures r.Bytes? ==> Took(old(fs.v), fs.v, i, off / BSIZE, EndBlock(off, |src|))
    ensures r.Bytes? ==>
      && Logged(old(fs.v), fs.v, fs.log.Blocks()) && InodesLogged(fs.v.sb, old(fs.dinode), fs.dinode, fs.log.Blocks())
      && DataLogged(fs.v, i, off / BSIZE, EndBlock(off, |src|), fs.log.Blocks())
  {
    fs.log := Journal([]);
    ChunkBound(off, |src|);
    r := fs.Writei(i, src, off);
  }

  function CallsOf(chunks: set<Journal>): set<seq<int>> {
    set j | j in chunks :: j.calls
  }

  /** Chunks of filewrite never make log_write panic: their journals, as WriteChunk leaves
      them, stay below MAXOPBLOCKS, so any interleaving of operations that make those calls
      is free of the panic. */
  lemma ChunksNeverPanic(g: RedoLog.Geometry, image: RedoLog.Disk, es: seq<LogRuns.Event>,
                         chunks: set<Journal>)
    requires RedoLog.DiskOk(g, image) && g.size > RedoLog.LOGSIZE
    requires forall j :: j in chunks ==> j.Peak() < MAXOPBLOCKS
    requires forall n :: 0 <= n < |es| ==> LogRuns.Follows(g, image, es, n, CallsOf(chunks))
    ensures LogRuns.Run(g, false, image, es) != LogRuns.Panic
  {
    hide LogRuns.Run, LogRuns.Follows, RedoLog.DiskOk;
    LogRuns.InterleavedLists(g, image, es, CallsOf(chunks));
  }

  /** How many of n bytes at `off` filewrite gets through, if blocks last: all of them, or
      the chunks that end within MAXFILE blocks. */
  function Reach(off: nat, n: nat): (m: nat)
    ensures m <= n && (off <= MAXBYTES ==> off + m <= MAXBYTES || m == 0)
  {
    if off + n <= MAXBYTES then n else if off > MAXBYTES then 0 else (MAXBYTES - off) / MAXCHUNK * MAXCHUNK
  }

  /** Past the largest file, that is as many whole chunks as fit. */
  lemma ReachIs(off: nat, n: nat)
    requires off <= MAXBYTES < off + n
    ensures Reach(off, n) % MAXCHUNK == 0 && off + Reach(off, n) <= MAXBYTES < off + Reach(off, n) + MAXCHUNK
  {
    assert MAXCHUNK == 1536;
    var x := MAXBYTES - off;
    assert x / 1536 * 1536 <= x < x / 1536 * 1536 + 1536;
    assert (x / 1536 * 1536) % 1536 == 0;
  }

  /** A chunk after i bytes goes through exactly when it ends within the reach. */
  lemma ReachStep(off: nat, n: nat, i: nat, n1: nat)
    requires off <= MAXBYTES && i < n && i % MAXCHUNK == 0 && i <= Reach(off, n) && n1 == Min(n - i, MAXCHUNK)
    ensures off + i + n1 <= MAXBYTES <==> i + n1 <= Reach(off, n)
    ensures off + i + n1 > MAXBYTES ==> i == Reach(off, n) < n
    ensures i + n1 < n ==> (i + n1) % MAXCHUNK == 0
  {
    Multiple(i, MAXBYTES - off);
  }

  lemma Multiple(i: nat, x: int)
    requires i % MAXCHUNK == 0
    ensures i + MAXCHUNK <= x <==> i + MAXCHUNK <= x / MAXCHUNK * MAXCHUNK
    ensures i <= x < i + MAXCHUNK ==> x / MAXCHUNK * MAXCHUNK == i
    ensures (i + MAXCHUNK) % MAXCHUNK == 0
  {
    assert MAXCHUNK == 1536;
    var q, p := i / 1536, x / 1536;
    assert i == q * 1536 && p * 1536 <= x < p * 1536 + 1536;
    assert i + 1536 == (q + 1) * 1536;
  }

  /** filewrite on a regular file.  The whole write happens, and the offset advances
      by it, exactly when it starts inside the file and ends within MAXFILE blocks;
      otherwise -1 is returned and the chunks that end within MAXFILE blocks, `done` bytes,
      were written.  It panics exactly when those need more blocks than are free. */
  method Filewrite(fs: FileSystem, f: File, src: seq<byte>) returns (r: Outcome, ghost done: nat)
    requires fs.Valid() && f.ip < |fs.v.ino| && fs.v.ino[f.ip].kind != T_DEV && 0 <= f.off < WORD - MAXBYTES
    modifies fs, f
    ensures r.Panic? <==>
      && old(f.off) <= Size(old(fs.v), f.ip)
      && Need(old(fs.v), f.ip, old(f.off) / BSIZE, EndBlock(old(f.off), Reach(old(f.off), |src|)))
         > FreeCount(old(fs.v).used)
    ensures !r.Panic? ==> fs.Valid() && (r == Error || r == Bytes(|src|))
    ensures !r.Panic? ==>
      (r == Error <==> src != [] && (old(f.off) > Size(old(fs.v), f.ip) || old(f.off) + |src| > MAXBYTES))
    ensures !r.Panic? ==> f.off == old(f.off) + done
    ensures !r.Panic? ==>
      if old(f.off) <= Size(old(fs.v), f.ip)
      then done == Reach(old(f.off), |src|) && Spliced(old(fs.v), fs.v, f.ip, old(f.off), src[..done])
      else fs.v == old(fs.v) && done == 0
  {
    hide FileSystem.Valid, Need, Took, Spliced, Reach, EndBlock;
    ghost var v0, off0 := fs.v, f.off;
    var i, n := 0, |src|;
    done := 0;
    fs.SizeBound(f.ip);
    WroteNothing(v0, f.ip, off0, src);
    while i < n
      invariant 0 <= i <= n && f.off == off0 + i && fs.Valid() && Wrote(v0, fs.v, f.ip, off0, src, i)
      invariant i < n ==> i % MAXCHUNK == 0
    {
      ghost var v1 := fs.v;
      var n1 := n - i;
      if n1 > MAXCHUNK {
        n1 := MAXCHUNK;
      }
      WroteBounds(v0, v1, f.ip, off0, src, i);
      r := WriteChunk(fs, f.ip, src[i..i + n1], f.off);
      done := i;
      if r.Panic? {
        ChunkStarved(v0, v1, f.ip, off0, src, i, n1);
        return;
      }
      if r.Error? {
        ChunkRefused(v0, v1, f.ip, off0, src, i, n1);
        return;
      }
      WroteChunk(v0, v1, fs.v, f.ip, off0, src, i, n1);
      f.off := f.off + n1;
      i := i + n1;
    }
    WroteAll(v0, fs.v, f.ip, off0, src);
    return Bytes(n), n;
  }

  /** writeToSwapFile, through filewrite: the swap file is the old one with the page
      spliced in, or, exactly when the page does not start inside it or would end past
      MAXFILE blocks, an error; it panics exactly when the write needs more blocks than are
      free. */
  method WriteToSwapFile(fs: FileSystem, f: File, page: seq<byte>, off: nat) returns (r: Outcome)
    requires fs.Valid() && f.ip < |fs.v.ino| && fs.v.ino[f.ip].kind != T_DEV && off < WORD - MAXBYTES && page != []
    modifies fs, f
    ensures r.Panic? <==>
      && off <= Size(old(fs.v), f.ip)
      && Need(old(fs.v), f.ip, off / BSIZE, EndBlock(off, Reach(off, |page|))) > FreeCount(old(fs.v).used)
    ensures !r.Panic? ==> fs.Valid() && (r == Error || r == Bytes(|page|))
    ensures !r.Panic? ==> (r == Error <==> off > Size(old(fs.v), f.ip) || off + |page| > MAXBYTES)
    ensures r.Bytes? ==> |fs.v.ino| == |old(fs.v).ino| && off <= Size(old(fs.v), f.ip)
    ensures r.Bytes? ==> Content(fs.v, f.ip) == Splice(Content(old(fs.v), f.ip), off, page)
  {
    hide FileSystem.Valid, Need, FreeCount;
    f.off := off;
    ghost var done;
    r, done := Filewrite(fs, f, page);
    assert page[..|page|] == page;
  }

  /** Where filewrite is after k bytes. */
  ghost predicate Wrote(v0: Vol, v: Vol, i: nat, off: nat, src: seq<byte>, k: nat)
    requires i < |v0.ino|
  {
    k <= |src| &&
    if off <= Size(v0, i)
    then Spliced(v0, v, i, off, src[..k]) && Took(v0, v, i, off / BSIZE, EndBlock(off, k)) && k <= Reach(off, |src|)
    else v == v0 && k == 0
  }

  lemma WroteNothing(v: Vol, i: nat, off: nat, src: seq<byte>)
    requires i < |v.ino|
    ensures Wrote(v, v, i, off, src, 0)
  {
    if off <= Size(v, i) {
      SplicedNothing(v, i, off);
      TookNothing(v, i, off / BSIZE);
    }
  }

  lemma WroteBounds(v0: Vol, v: Vol, i: nat, off: nat, src: seq<byte>, k: nat)
    requires i < |v0.ino| && Wrote(v0, v, i, off, src, k) && Size(v0, i) <= MAXBYTES
    ensures i < |v.ino| && v.ino[i].kind == v0.ino[i].kind && off + k <= off + MAXBYTES
    ensures if off <= Size(v0, i) then Size(v, i) == Max(Size(v0, i), off + k) else v == v0 && k == 0
  {
    if off <= Size(v0, i) {
      SplicedSize(v0, v, i, off, src[..k]);
    }
  }

  predicate AtChunk(src: seq<byte>, k: nat, n1: nat) {
    k < |src| && k % MAXCHUNK == 0 && n1 == Min(|src| - k, MAXCHUNK)
  }

  /** A chunk of n1 bytes after k bytes was written. */
  lemma WroteChunk(v0: Vol, v1: Vol, v: Vol, i: nat, off: nat, src: seq<byte>, k: nat, n1: nat)
    requires i < |v0.ino| && Wrote(v0, v1, i, off, src, k) && i < |v1.ino| && Size(v0, i) <= MAXBYTES
    requires AtChunk(src, k, n1) && off + k <= Size(v1, i) && off + k + n1 <= MAXBYTES
    requires Spliced(v1, v, i, off + k, src[k..k + n1])
    requires Took(v1, v, i, (off + k) / BSIZE, EndBlock(off + k, n1))
    ensures Wrote(v0, v, i, off, src, k + n1) && (k + n1 < |src| ==> (k + n1) % MAXCHUNK == 0)
  {
    WroteBounds(v0, v1, i, off, src, k);
    hide Took, Spliced, Reach, EndBlock;
    ReachStep(off, |src|, k, n1);
    ChunkBlocks(off, k, n1);
    SplicedNext(v0, v1, v, i, off, src, k, n1);
    TookTwice(v0, v1, v, i, off / BSIZE, EndBlock(off, k), (off + k) / BSIZE, EndBlock(off + k, n1));
  }

  lemma SplicedNext(v0: Vol, v1: Vol, v2: Vol, i: nat, off: nat, src: seq<byte>, k: nat, n1: nat)
    requires k + n1 <= |src| && Spliced(v0, v1, i, off, src[..k]) && Spliced(v1, v2, i, off + k, src[k..k + n1])
    ensures Spliced(v0, v2, i, off, src[..k + n1])
  {
    hide Spliced;
    SplicedTwice(v0, v1, v2, i, off, src[..k], src[k..k + n1]);
    assert src[..k] + src[k..k + n1] == src[..k + n1];
  }

  /** A chunk was refused: everything within reach has been written. */
  lemma ChunkRefused(v0: Vol, v1: Vol, i: nat, off: nat, src: seq<byte>, k: nat, n1: nat)
    requires i < |v0.ino| && Wrote(v0, v1, i, off, src, k) && i < |v1.ino| && Size(v0, i) <= MAXBYTES
    requires AtChunk(src, k, n1) && (off + k > Size(v1, i) || off + k + n1 > MAXBYTES)
    ensures off > Size(v0, i) || (off + |src| > MAXBYTES && k == Reach(off, |src|))
    ensures off <= Size(v0, i) ==>
      Need(v0, i, off / BSIZE, EndBlock(off, Reach(off, |src|))) <= FreeCount(v0.used)
  {
    WroteBounds(v0, v1, i, off, src, k);
    hide Took, Spliced, Need;
    if off <= Size(v0, i) {
      ReachStep(off, |src|, k, n1);
      TookEnough(v0, v1, i, off / BSIZE, EndBlock(off, k));
    }
  }

  /** A chunk found too few free blocks: so would the whole write. */
  lemma ChunkStarved(v0: Vol, v1: Vol, i: nat, off: nat, src: seq<byte>, k: nat, n1: nat)
    requires i < |v0.ino| && Wrote(v0, v1, i, off, src, k) && i < |v1.ino| && Size(v0, i) <= MAXBYTES
    requires AtChunk(src, k, n1) && off + k <= Size(v1, i) && off + k + n1 <= MAXBYTES
    requires Need(v1, i, (off + k) / BSIZE, EndBlock(off + k, n1)) > FreeCount(v1.used)
    ensures off <= Size(v0, i)
    ensures Need(v0, i, off / BSIZE, EndBlock(off, Reach(off, |src|))) > FreeCount(v0.used)
  {
    WroteBounds(v0, v1, i, off, src, k);
    hide Spliced, Need;
    var lo, c, lo', h := off / BSIZE, EndBlock(off, k), (off + k) / BSIZE, EndBlock(off + k, n1);
    ReachStep(off, |src|, k, n1);
    ChunkBlocks(off, k, n1);
    NeedCompose(v0, v1, i, lo, c, lo', h);
    EndBlockMonotone(off, k + n1, Reach(off, |src|));
    NeedMonotone(v0, i, lo, h, EndBlock(off, Reach(off, |src|)));
  }

  lemma ChunkBlocks(off: nat, k: nat, n1: nat)
    requires n1 > 0
    ensures var lo, c, lo', h := off / BSIZE, EndBlock(off, k), (off + k) / BSIZE, EndBlock(off + k, n1);
      h == EndBlock(off, k + n1) && c <= h && (lo' == c || lo <= lo' == c - 1)
  {
  }

  lemma EndBlockMonotone(off: nat, a: nat, b: nat)
    requires a <= b
    ensures EndBlock(off, a) <= EndBlock(off, b)
  {
  }

  lemma WroteAll(v0: Vol, v: Vol, i: nat, off: nat, src: seq<byte>)
    requires i < |v0.ino| && Wrote(v0, v, i, off, src, |src|)
    ensures off <= Size(v0, i) ==>
      && Reach(off, |src|) == |src|
      && Need(v0, i, off / BSIZE, EndBlock(off, |src|)) <= FreeCount(v0.used)
  {
    if off <= Size(v0, i) {
      TookEnough(v0, v, i, off / BSIZE, EndBlock(off, |src|));
    }
  }
}
