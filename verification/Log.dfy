/** The on-disk redo log (log.c).

    A disk is a sequence of blocks of 128 words, written one block at a time.
    `commit` and `recover_from_log` are described by the list of block writes
    they issue, so that "a crash between any two writes" is a prefix of that
    list.  Class `Log` is the in-memory side of log.c; its methods are proved to
    issue exactly those lists.  */
module RedoLog {
  import opened Basics

  const BLOCK_WORDS := 128
  const MAXOPBLOCKS := 10
  const LOGSIZE := 3 * MAXOPBLOCKS

  type Block = b: seq<int> | |b| == BLOCK_WORDS witness seq(BLOCK_WORDS, _ => 0)
  type Disk = seq<Block>

  datatype Write = Write(blockno: int, data: Block)

  /** Where the log lives: block `start` is the header, the next `size - 1`
      blocks hold logged copies; every other block is a home block. */
  datatype Geometry = Geometry(start: nat, size: nat, nblocks: nat) {
    predicate Valid() {
      1 <= size && start + size <= nblocks
    }
    predicate IsHome(b: int) {
      0 <= b < nblocks && !(start <= b < start + size)
    }
  }

  /** A list of home blocks that fits in the log. */
  predicate GoodList(g: Geometry, lh: seq<int>) {
    |lh| <= LOGSIZE && |lh| < g.size && Distinct(lh) && forall i :: 0 <= i < |lh| ==> g.IsHome(lh[i])
  }

  // ---------------------------------------------------------------- header block

  /** What write_head stores: the count, then the block numbers; the rest of the
      header block keeps its old contents. */
  function PutHeader(prev: Block, lh: seq<int>): (r: Block)
    requires |lh| <= LOGSIZE
  {
    [|lh|] + lh + prev[1 + |lh|..]
  }

  predicate HeaderReadable(b: Block) {
    0 <= b[0] <= LOGSIZE
  }

  /** What read_head loads. */
  function GetHeader(b: Block): seq<int>
    requires HeaderReadable(b)
  {
    b[1..1 + b[0]]
  }

  lemma HeaderRoundTrip(prev: Block, lh: seq<int>)
    requires |lh| <= LOGSIZE
    ensures HeaderReadable(PutHeader(prev, lh)) && GetHeader(PutHeader(prev, lh)) == lh
  {
    assert PutHeader(prev, lh)[1..1 + |lh|] == lh;
  }

  predicate DiskOk(g: Geometry, d: Disk) {
    && g.Valid() && |d| == g.nblocks
    && HeaderReadable(d[g.start]) && GoodList(g, GetHeader(d[g.start]))
  }

  function Pending(g: Geometry, d: Disk): seq<int>
    requires DiskOk(g, d)
  {
    GetHeader(d[g.start])
  }

  // ---------------------------------------------------------------- write lists

  /** The disk after the given block writes, oldest first (a write past the end
      of the disk would be dropped). */
  function Apply(d: Disk, ws: seq<Write>): (r: Disk)
    ensures |r| == |d|
    decreases |ws|
  {
    if ws == [] then d
    else
      var w := ws[|ws| - 1];
      var p := Apply(d, ws[..|ws| - 1]);
      if 0 <= w.blockno < |d| then p[w.blockno := w.data] else p
  }

  lemma {:induction false} ApplyAppend(d: Disk, a: seq<Write>, b: seq<Write>)
    ensures Apply(d, a + b) == Apply(Apply(d, a), b)
    decreases |b|
  {
    if b == [] {
      assert a + b == a;
    } else {
      ApplyAppend(d, a, b[..|b| - 1]);
      assert (a + b)[..|a + b| - 1] == a + b[..|b| - 1];
    }
  }

  lemma ApplyNone(d: Disk, ws: seq<Write>)
    ensures Apply(d, ws[..0]) == d
  {
  }

  /** One more write of a script. */
  lemma ApplyNext(d: Disk, ws: seq<Write>, k: nat)
    requires k < |ws| && 0 <= ws[k].blockno < |d|
    ensures ws[..k + 1] == ws[..k] + [ws[k]] && |Apply(d, ws[..k])| == |d|
    ensures Apply(d, ws[..k + 1]) == Apply(d, ws[..k])[ws[k].blockno := ws[k].data]
  {
    assert ws[..k + 1][..k] == ws[..k];
  }

  /** A block nobody writes keeps its contents. */
  lemma {:induction false} ApplyFrame(d: Disk, ws: seq<Write>, b: int)
    requires 0 <= b < |d|
    requires forall i :: 0 <= i < |ws| ==> ws[i].blockno != b
    ensures Apply(d, ws)[b] == d[b]
    decreases |ws|
  {
    if ws == [] {
    } else {
      ApplyFrame(d, ws[..|ws| - 1], b);
    }
  }

  /** A block written exactly once ends up with what was written. */
  lemma {:induction false} ApplyAt(d: Disk, ws: seq<Write>, k: int)
    requires 0 <= k < |ws| && 0 <= ws[k].blockno < |d|
    requires forall i :: k < i < |ws| ==> ws[i].blockno != ws[k].blockno
    ensures Apply(d, ws)[ws[k].blockno] == ws[k].data
    decreases |ws|
  {
    if k == |ws| - 1 {
    } else {
      ApplyAt(d, ws[..|ws| - 1], k);
    }
  }

  // ---------------------------------------------------------------- scripts of log.c

  /** write_log: copy each modified block from the cache to its log slot. */
  function LogWrites(g: Geometry, lh: seq<int>, pinned: map<int, Block>): (ws: seq<Write>)
    requires forall i :: 0 <= i < |lh| ==> lh[i] in pinned
  {
    seq(|lh|, i requires 0 <= i < |lh| => Write(g.start + 1 + i, pinned[lh[i]]))
  }

  /** The i-th logged copy. */
  function Slot(g: Geometry, d: Disk, i: nat): Block
    requires g.start + 1 + i < |d|
  {
    d[g.start + 1 + i]
  }

  /** install_trans: copy each log slot to its home block. */
  function InstallWrites(g: Geometry, d: Disk, lh: seq<int>): (ws: seq<Write>)
    requires g.Valid() && |d| == g.nblocks && |lh| < g.size
  {
    seq(|lh|, i requires 0 <= i < |lh| => Write(lh[i], Slot(g, d, i)))
  }

  function HeadWrite(g: Geometry, d: Disk, lh: seq<int>): Write
    requires g.start < |d| && |lh| <= LOGSIZE
  {
    Write(g.start, PutHeader(d[g.start], lh))
  }

  /** recover_from_log: install what the header lists, then clear the header. */
  function RecoverScript(g: Geometry, d: Disk): (ws: seq<Write>)
    requires DiskOk(g, d)
  {
    InstallWrites(g, d, Pending(g, d)) + [HeadWrite(g, d, [])]
  }

  /** The copies write_log makes, as writes to the home blocks. */
  function HomeWrites(lh: seq<int>, pinned: map<int, Block>): (ws: seq<Write>)
    requires forall i :: 0 <= i < |lh| ==> lh[i] in pinned
  {
    seq(|lh|, i requires 0 <= i < |lh| => Write(lh[i], pinned[lh[i]]))
  }

  /** commit: the k-th block write is a log copy, then the header, then a home
      copy, and last of all the empty header. */
  function CommitWrite(g: Geometry, d: Disk, lh: seq<int>, pinned: map<int, Block>, k: nat): Write
    requires g.Valid() && |d| == g.nblocks && |lh| <= LOGSIZE
    requires forall i :: 0 <= i < |lh| ==> lh[i] in pinned
  {
    var n := |lh|;
    if k < n then Write(g.start + 1 + k, pinned[lh[k]])
    else if k == n then Write(g.start, PutHeader(d[g.start], lh))
    else if k <= 2 * n then Write(lh[k - n - 1], pinned[lh[k - n - 1]])
    else Write(g.start, PutHeader(PutHeader(d[g.start], lh), []))
  }

  function CommitScript(g: Geometry, d: Disk, lh: seq<int>, pinned: map<int, Block>): (ws: seq<Write>)
    requires g.Valid() && |d| == g.nblocks && |lh| <= LOGSIZE
    requires forall i :: 0 <= i < |lh| ==> lh[i] in pinned
  {
    if lh == [] then [] else seq(2 * |lh| + 2, k requires 0 <= k => CommitWrite(g, d, lh, pinned, k))
  }

  // ---------------------------------------------------------------- what a crash leaves behind

  type Home = map<int, Block>

  function HomeOf(g: Geometry, d: Disk): Home
    requires |d| == g.nblocks
  {
    map b: int | 0 <= b < |d| && g.IsHome(b) :: d[b]
  }

  /** The home blocks once recovery has run to completion on disk `d`. */
  function Recovered(g: Geometry, d: Disk): Home
    requires DiskOk(g, d)
  {
    HomeOf(g, Apply(d, RecoverScript(g, d)))
  }

  /** Recovery puts logged copies in the listed home blocks and leaves the rest. */
  lemma RecoveredAt(g: Geometry, d: Disk, b: int)
    requires DiskOk(g, d) && g.IsHome(b)
    ensures forall i :: 0 <= i < |Pending(g, d)| && Pending(g, d)[i] == b ==> Recovered(g, d)[b] == Slot(g, d, i)
    ensures b !in Pending(g, d) ==> Recovered(g, d)[b] == d[b]
  {
    var lh := Pending(g, d);
    var ws := RecoverScript(g, d);
    forall i | 0 <= i < |lh| && lh[i] == b
      ensures Apply(d, ws)[b] == Slot(g, d, i)
    {
      ApplyAt(d, ws, i);
    }
    if b !in lh {
      ApplyFrame(d, ws, b);
    }
  }

  /** Two disks with the same header list, the same logged copies and the same
      unlisted home blocks recover to the same home blocks. */
  lemma SameRecovery(g: Geometry, d: Disk, e: Disk)
    requires DiskOk(g, d) && DiskOk(g, e)
    requires Pending(g, d) == Pending(g, e)
    requires forall i :: 0 <= i < |Pending(g, d)| ==> Slot(g, d, i) == Slot(g, e, i)
    requires forall b :: g.IsHome(b) && b !in Pending(g, d) ==> d[b] == e[b]
    ensures Recovered(g, d) == Recovered(g, e)
  {
    forall b | g.IsHome(b)
      ensures Recovered(g, d)[b] == Recovered(g, e)[b]
    {
      RecoveredAt(g, d, b);
      RecoveredAt(g, e, b);
      if i :| 0 <= i < |Pending(g, d)| && Pending(g, d)[i] == b {
        assert Slot(g, d, i) == Slot(g, e, i);
      }
    }
  }

  /** With an empty header there is nothing to replay. */
  lemma NothingPending(g: Geometry, d: Disk)
    requires DiskOk(g, d) && Pending(g, d) == []
    ensures Recovered(g, d) == HomeOf(g, d)
  {
    forall b | g.IsHome(b)
      ensures Recovered(g, d)[b] == d[b]
    {
      RecoveredAt(g, d, b);
    }
  }

  /** Recovery is idempotent under interruption: whatever prefix of its writes
      reached the disk, recovering again gives the same home blocks. */
  lemma RecoverPrefix(g: Geometry, d: Disk, k: nat)
    requires DiskOk(g, d) && k <= |RecoverScript(g, d)|
    ensures DiskOk(g, Apply(d, RecoverScript(g, d)[..k]))
    ensures Recovered(g, Apply(d, RecoverScript(g, d)[..k])) == Recovered(g, d)
    ensures k == |RecoverScript(g, d)| ==> Pending(g, Apply(d, RecoverScript(g, d)[..k])) == []
  {
    var lh := Pending(g, d);
    var ws := RecoverScript(g, d);
    var e := Apply(d, ws[..k]);
    if k <= |lh| {
      forall b | 0 <= b < |d| && b !in lh
        ensures e[b] == d[b]
      {
        ApplyFrame(d, ws[..k], b);
      }
      SameRecovery(g, d, e);
    } else {
      assert ws[..k] == ws;
      ApplyAt(d, ws, |lh|);
      HeaderRoundTrip(d[g.start], []);
      NothingPending(g, e);
    }
  }

  /** The home blocks with the modified cache blocks on top: what the file
      system sees before the commit, and what a commit must make durable. */
  function Overlay(g: Geometry, d: Disk, pinned: map<int, Block>): Home
    requires |d| == g.nblocks
  {
    map b: int | 0 <= b < |d| && g.IsHome(b) :: if b in pinned then pinned[b] else d[b]
  }

  predicate Pinned(lh: seq<int>, pinned: map<int, Block>) {
    (forall i :: 0 <= i < |lh| ==> lh[i] in pinned) && (forall b :: b in pinned ==> b in lh)
  }

  /** Before the header write: nothing of the transaction is visible to recovery. */
  lemma CommitBeforeHeader(g: Geometry, d: Disk, lh: seq<int>, pinned: map<int, Block>, k: nat)
    requires DiskOk(g, d) && Pending(g, d) == [] && GoodList(g, lh) && Pinned(lh, pinned)
    requires k <= |lh|
    ensures var e := Apply(d, CommitScript(g, d, lh, pinned)[..k]);
            DiskOk(g, e) && Pending(g, e) == [] && Recovered(g, e) == HomeOf(g, d)
  {
    var ws := CommitScript(g, d, lh, pinned)[..k];
    var e := Apply(d, ws);
    forall b | 0 <= b < |d| && (b == g.start || g.IsHome(b))
      ensures e[b] == d[b]
    {
      ApplyFrame(d, ws, b);
    }
    NothingPending(g, e);
    assert HomeOf(g, e) == HomeOf(g, d);
  }

  /** Once written, a log copy stays put until the end of the commit. */
  lemma CommitSlot(g: Geometry, d: Disk, lh: seq<int>, pinned: map<int, Block>, k: nat, i: nat)
    requires DiskOk(g, d) && GoodList(g, lh) && Pinned(lh, pinned)
    requires i < |lh| && i < k <= |CommitScript(g, d, lh, pinned)|
    ensures Slot(g, Apply(d, CommitScript(g, d, lh, pinned)[..k]), i) == pinned[lh[i]]
  {
    hide Apply, PutHeader, GetHeader;
    var ws := CommitScript(g, d, lh, pinned)[..k];
    assert ws[i] == CommitWrite(g, d, lh, pinned, i);
    forall j | i < j < |ws|
      ensures ws[j].blockno != g.start + 1 + i
    {
      assert ws[j] == CommitWrite(g, d, lh, pinned, j);
    }
    ApplyAt(d, ws, i);
  }

  /** From the header write to just before the header is cleared: recovery
      replays the whole transaction. */
  lemma CommitAfterHeader(g: Geometry, d: Disk, lh: seq<int>, pinned: map<int, Block>, k: nat)
    requires DiskOk(g, d) && GoodList(g, lh) && lh != [] && Pinned(lh, pinned)
    requires |lh| < k <= 2 * |lh| + 1
    ensures var e := Apply(d, CommitScript(g, d, lh, pinned)[..k]);
            DiskOk(g, e) && Pending(g, e) == lh && Recovered(g, e) == Overlay(g, d, pinned)
  {
    hide Apply, PutHeader, GetHeader;
    CommitHeader(g, d, lh, pinned, k);
    var e := Apply(d, CommitScript(g, d, lh, pinned)[..k]);
    forall b | g.IsHome(b)
      ensures Recovered(g, e)[b] == Overlay(g, d, pinned)[b]
    {
      CommitAfterHeaderAt(g, d, lh, pinned, k, b);
    }
  }

  lemma CommitHeader(g: Geometry, d: Disk, lh: seq<int>, pinned: map<int, Block>, k: nat)
    requires DiskOk(g, d) && GoodList(g, lh) && lh != [] && Pinned(lh, pinned)
    requires |lh| < k <= 2 * |lh| + 1
    ensures var e := Apply(d, CommitScript(g, d, lh, pinned)[..k]); DiskOk(g, e) && Pending(g, e) == lh
  {
    var ws := CommitScript(g, d, lh, pinned)[..k];
    ApplyAt(d, ws, |lh|);
    HeaderRoundTrip(d[g.start], lh);
  }

  lemma CommitAfterHeaderAt(g: Geometry, d: Disk, lh: seq<int>, pinned: map<int, Block>, k: nat, b: int)
    requires DiskOk(g, d) && GoodList(g, lh) && lh != [] && Pinned(lh, pinned) && g.IsHome(b)
    requires |lh| < k <= 2 * |lh| + 1
    ensures var e := Apply(d, CommitScript(g, d, lh, pinned)[..k]);
            DiskOk(g, e) && Recovered(g, e)[b] == Overlay(g, d, pinned)[b]
  {
    hide Apply, PutHeader, GetHeader;
    CommitHeader(g, d, lh, pinned, k);
    var ws := CommitScript(g, d, lh, pinned)[..k];
    RecoveredAt(g, Apply(d, ws), b);
    if i :| 0 <= i < |lh| && lh[i] == b {
      CommitSlot(g, d, lh, pinned, k, i);
    } else {
      ApplyFrame(d, ws, b);
    }
  }

  lemma CommitHome(g: Geometry, d: Disk, lh: seq<int>, pinned: map<int, Block>, b: int)
    requires DiskOk(g, d) && GoodList(g, lh) && lh != [] && Pinned(lh, pinned) && g.IsHome(b)
    ensures Apply(d, CommitScript(g, d, lh, pinned))[b] == if b in pinned then pinned[b] else d[b]
  {
    hide Apply, PutHeader, GetHeader;
    var ws, n := CommitScript(g, d, lh, pinned), |lh|;
    if i :| 0 <= i < n && lh[i] == b {
      assert ws[n + 1 + i] == Write(b, pinned[b]);
      ApplyAt(d, ws, n + 1 + i);
    } else {
      ApplyFrame(d, ws, b);
    }
  }

  lemma CommitCleared(g: Geometry, d: Disk, lh: seq<int>, pinned: map<int, Block>)
    requires DiskOk(g, d) && GoodList(g, lh) && lh != [] && Pinned(lh, pinned)
    ensures var e := Apply(d, CommitScript(g, d, lh, pinned)); DiskOk(g, e) && Pending(g, e) == []
  {
    hide Apply, PutHeader;
    ApplyAt(d, CommitScript(g, d, lh, pinned), 2 * |lh| + 1);
    HeaderRoundTrip(PutHeader(d[g.start], lh), []);
  }

  /** After the last write the transaction is installed and the log is empty. */
  lemma CommitComplete(g: Geometry, d: Disk, lh: seq<int>, pinned: map<int, Block>)
    requires DiskOk(g, d) && GoodList(g, lh) && lh != [] && Pinned(lh, pinned)
    ensures var e := Apply(d, CommitScript(g, d, lh, pinned));
      && DiskOk(g, e) && Pending(g, e) == [] && HomeOf(g, e) == Overlay(g, d, pinned)
      && Recovered(g, e) == HomeOf(g, e)
  {
    hide Apply, CommitScript, Recovered, PutHeader;
    var e := Apply(d, CommitScript(g, d, lh, pinned));
    CommitCleared(g, d, lh, pinned);
    forall b | g.IsHome(b)
      ensures e[b] == if b in pinned then pinned[b] else d[b]
    {
      CommitHome(g, d, lh, pinned, b);
    }
    NothingPending(g, e);
  }

  /** Crash atomicity of commit: whichever prefix of its writes reached the disk,
      recovery yields all of the old home blocks or all of the new ones, and the
      new ones exactly when the header write is in the prefix. */
  lemma CommitPrefix(g: Geometry, d: Disk, lh: seq<int>, pinned: map<int, Block>, k: nat)
    requires DiskOk(g, d) && Pending(g, d) == [] && GoodList(g, lh) && Pinned(lh, pinned)
    requires k <= |CommitScript(g, d, lh, pinned)|
    ensures var e := Apply(d, CommitScript(g, d, lh, pinned)[..k]);
            DiskOk(g, e) && Recovered(g, e) == if k > |lh| then Overlay(g, d, pinned) else HomeOf(g, d)
  {
    var ws := CommitScript(g, d, lh, pinned);
    if k <= |lh| {
      CommitBeforeHeader(g, d, lh, pinned, k);
    } else if k <= 2 * |lh| + 1 {
      CommitAfterHeader(g, d, lh, pinned, k);
    } else {
      assert ws[..k] == ws;
      CommitComplete(g, d, lh, pinned);
    }
  }

  /** The disk after a series of recoveries, each cut short after the given
      number of writes. */
  function Interrupted(g: Geometry, d: Disk, cuts: seq<nat>): (e: Disk)
    requires DiskOk(g, d)
    ensures DiskOk(g, e) && Recovered(g, e) == Recovered(g, d)
    decreases |cuts|
  {
    if cuts == [] then d
    else
      var p := Interrupted(g, d, cuts[..|cuts| - 1]);
      var k := cuts[|cuts| - 1];
      var n := if k <= |RecoverScript(g, p)| then k else |RecoverScript(g, p)|;
      RecoverPrefix(g, p, n);
      Apply(p, RecoverScript(g, p)[..n])
  }

  /** Crash atomicity end to end: crash inside commit after k writes, crash again
      inside recovery any number of times, then let recovery finish. */
  lemma CrashAtomicity(g: Geometry, d: Disk, lh: seq<int>, pinned: map<int, Block>, k: nat, cuts: seq<nat>)
    requires DiskOk(g, d) && Pending(g, d) == [] && GoodList(g, lh) && Pinned(lh, pinned)
    requires k <= |CommitScript(g, d, lh, pinned)|
    ensures DiskOk(g, Apply(d, CommitScript(g, d, lh, pinned)[..k]))
    ensures var e := Interrupted(g, Apply(d, CommitScript(g, d, lh, pinned)[..k]), cuts);
            var f := Apply(e, RecoverScript(g, e));
            && DiskOk(g, f) && Pending(g, f) == []
            && HomeOf(g, f) == if k > |lh| then Overlay(g, d, pinned) else HomeOf(g, d)
  {
    CommitPrefix(g, d, lh, pinned, k);
    var e := Interrupted(g, Apply(d, CommitScript(g, d, lh, pinned)[..k]), cuts);
    RecoverPrefix(g, e, |RecoverScript(g, e)|);
    assert RecoverScript(g, e)[..|RecoverScript(g, e)|] == RecoverScript(g, e);
  }

  /** The disk once write_log and the first write_head are done. */
  function Logged(g: Geometry, d: Disk, lh: seq<int>, pinned: map<int, Block>): (e: Disk)
    requires g.Valid() && |d| == g.nblocks && GoodList(g, lh) && Pinned(lh, pinned)
    ensures |e| == g.nblocks
  {
    Apply(d, LogWrites(g, lh, pinned))[g.start := PutHeader(d[g.start], lh)]
  }

  lemma LogWriteSlot(g: Geometry, d: Disk, lh: seq<int>, pinned: map<int, Block>, i: nat)
    requires g.Valid() && |d| == g.nblocks && GoodList(g, lh) && Pinned(lh, pinned) && i < |lh|
    ensures Slot(g, Apply(d, LogWrites(g, lh, pinned)), i) == pinned[lh[i]]
  {
    var a := LogWrites(g, lh, pinned);
    assert a[i] == Write(g.start + 1 + i, pinned[lh[i]]);
    ApplyAt(d, a, i);
  }

  lemma LoggedBlocks(g: Geometry, d: Disk, lh: seq<int>, pinned: map<int, Block>)
    requires g.Valid() && |d| == g.nblocks && GoodList(g, lh) && Pinned(lh, pinned)
    ensures Apply(d, LogWrites(g, lh, pinned))[g.start] == d[g.start]
    ensures InstallWrites(g, Logged(g, d, lh, pinned), lh) == HomeWrites(lh, pinned)
  {
    var a := LogWrites(g, lh, pinned);
    ApplyFrame(d, a, g.start);
    forall i | 0 <= i < |lh|
      ensures Slot(g, Logged(g, d, lh, pinned), i) == pinned[lh[i]]
    {
      LogWriteSlot(g, d, lh, pinned, i);
    }
  }

  lemma CommitScriptPhases(g: Geometry, d: Disk, lh: seq<int>, pinned: map<int, Block>)
    requires g.Valid() && |d| == g.nblocks && GoodList(g, lh) && lh != [] && Pinned(lh, pinned)
    ensures CommitScript(g, d, lh, pinned) ==
            LogWrites(g, lh, pinned) + [HeadWrite(g, d, lh)] + HomeWrites(lh, pinned)
            + [Write(g.start, PutHeader(PutHeader(d[g.start], lh), []))]
  {
  }

  /** The four phases of commit, run one after the other, issue CommitScript. */
  lemma CommitPhases(g: Geometry, d: Disk, lh: seq<int>, pinned: map<int, Block>)
    requires g.Valid() && |d| == g.nblocks && GoodList(g, lh) && lh != [] && Pinned(lh, pinned)
    ensures var e := Apply(Logged(g, d, lh, pinned), HomeWrites(lh, pinned));
            && e[g.start] == PutHeader(d[g.start], lh)
            && Apply(d, CommitScript(g, d, lh, pinned)) == e[g.start := PutHeader(e[g.start], [])]
  {
    var a, h, c := LogWrites(g, lh, pinned), HeadWrite(g, d, lh), HomeWrites(lh, pinned);
    var ws := CommitScript(g, d, lh, pinned);
    assert Logged(g, d, lh, pinned) == Apply(d, a + [h]) by { assert (a + [h])[..|a|] == a; }
    ApplyFrame(Logged(g, d, lh, pinned), c, g.start);
    ApplyAppend(d, a + [h], c);
    CommitScriptPhases(g, d, lh, pinned);
    assert ws[..|ws| - 1] == a + [h] + c;
  }

  // ---------------------------------------------------------------- the in-memory side

  /** Log absorption: a block already listed keeps its place. */
  function Absorb(lh: seq<int>, b: int): (r: seq<int>)
    ensures b in r && (forall x :: x in r <==> x in lh || x == b)
    ensures Distinct(lh) ==> Distinct(r)
    ensures |lh| <= |r| <= |lh| + 1
  {
    if b in lh then lh else lh + [b]
  }

  /** The test at the top of log_write. */
  predicate TooBig(g: Geometry, lh: seq<int>) {
    |lh| >= LOGSIZE || |lh| >= g.size - 1
  }

  /** The test begin_op sleeps on. */
  predicate LogMayFill(lh: seq<int>, outstanding: int) {
    |lh| + (outstanding + 1) * MAXOPBLOCKS > LOGSIZE
  }

  lemma RecoverPhases(g: Geometry, d: Disk)
    requires DiskOk(g, d)
    ensures var mid := InstallWrites(g, d, Pending(g, d));
      && RecoverScript(g, d) == mid + [HeadWrite(g, d, [])]
      && |Apply(d, mid)| == |d| && Apply(d, mid)[g.start] == d[g.start]
      && HeadWrite(g, Apply(d, mid), []) == HeadWrite(g, d, [])
      && Apply(d, RecoverScript(g, d)) == Apply(d, mid)[g.start := PutHeader(d[g.start], [])]
  {
    hide PutHeader;
    var mid := InstallWrites(g, d, Pending(g, d));
    ApplyFrame(d, mid, g.start);
    assert RecoverScript(g, d)[..|mid|] == mid;
  }

  lemma RecoverEnds(g: Geometry, d: Disk)
    requires DiskOk(g, d)
    ensures var e := Apply(d, RecoverScript(g, d));
      && DiskOk(g, e) && Pending(g, e) == [] && HomeOf(g, e) == Recovered(g, d)
  {
    hide Apply, RecoverScript, HomeOf;
    var ws := RecoverScript(g, d);
    RecoverPrefix(g, d, |ws|);
    assert ws[..|ws|] == ws;
  }

  lemma AbsorbOk(g: Geometry, lh: seq<int>, pinned: map<int, Block>, b: int, data: Block)
    requires GoodList(g, lh) && Pinned(lh, pinned) && g.IsHome(b) && !TooBig(g, lh)
    ensures GoodList(g, Absorb(lh, b)) && Pinned(Absorb(lh, b), pinned[b := data])
  {
  }

  lemma AbsorbNew(lh: seq<int>, b: int)
    requires b !in lh[..|lh|]
    ensures Absorb(lh, b) == lh + [b]
  {
    assert lh[..|lh|] == lh;
  }

  lemma AbsorbFound(lh: seq<int>, b: int, i: nat)
    requires i < |lh| && lh[i] == b
    ensures Absorb(lh, b) == lh == lh[i := b]
  {
  }

  lemma OverlayPinned(g: Geometry, d: Disk, pinned: map<int, Block>, b: int, data: Block)
    requires |d| == g.nblocks && g.IsHome(b)
    ensures Overlay(g, d, pinned[b := data]) == Overlay(g, d, pinned)[b := data]
  {
  }

  class Log {
    const g: Geometry
    var disk: Disk
    /** The buffers log_write marked B_DIRTY; a clean buffer equals its disk block. */
    var pinned: map<int, Block>
    var lh: seq<int>
    var outstanding: int
    var committing: bool
    /** Every block write issued so far, oldest first. */
    ghost var writes: seq<Write>

    ghost predicate Valid()
      reads this
    {
      && DiskOk(g, disk) && outstanding >= 0
      && GoodList(g, lh) && Pinned(lh, pinned)
      && (!committing ==> Pending(g, disk) == [])
    }

    /** initlog on a disk image left by an earlier run or by mkfs. */
    constructor (g: Geometry, image: Disk)
      requires DiskOk(g, image)
      ensures this.g == g && Valid() && fresh(this)
      ensures lh == [] && pinned == map[] && outstanding == 0 && !committing
      ensures writes == RecoverScript(g, image) && disk == Apply(image, writes)
      ensures HomeOf(g, disk) == Recovered(g, image)
    {
      this.g := g;
      disk, pinned, lh, outstanding, committing, writes := image, map[], [], 0, false, [];
      new;
      RecoverFromLog();
      assert writes == RecoverScript(g, image);
    }

    function Bread(b: int): Block
      requires 0 <= b < |disk|
      reads this
    {
      if b in pinned then pinned[b] else disk[b]
    }

    method Bwrite(b: int, data: Block)
      requires 0 <= b < |disk|
      modifies this`disk, this`pinned, this`writes
      ensures disk == old(disk)[b := data] && pinned == old(pinned) - {b}
      ensures writes == old(writes) + [Write(b, data)]
    {
      disk := disk[b := data];
      pinned := pinned - {b};
      writes := writes + [Write(b, data)];
    }

    method WriteLog()
      requires g.Valid() && |disk| == g.nblocks && GoodList(g, lh) && Pinned(lh, pinned)
      modifies this`disk, this`pinned, this`writes
      ensures pinned == old(pinned)
      ensures writes == old(writes) + LogWrites(g, lh, pinned)
      ensures disk == Apply(old(disk), LogWrites(g, lh, pinned))
    {
      hide Apply;
      ghost var ws := LogWrites(g, lh, pinned);
      ApplyNone(disk, ws);
      var tail := 0;
      while tail < |lh|
        invariant 0 <= tail <= |lh| && pinned == old(pinned)
        invariant disk == Apply(old(disk), ws[..tail])
        invariant writes == old(writes) + ws[..tail]
      {
        var from := Bread(lh[tail]);
        assert g.start + 1 + tail !in pinned;
        ApplyNext(old(disk), ws, tail);
        Bwrite(g.start + 1 + tail, from);
        assert pinned == old(pinned);
        tail := tail + 1;
      }
      assert ws[..tail] == ws;
    }

    method InstallTrans()
      requires g.Valid() && |disk| == g.nblocks && GoodList(g, lh) && forall b :: b in pinned ==> b in lh
      modifies this`disk, this`pinned, this`writes
      ensures pinned == map[]
      ensures writes == old(writes) + InstallWrites(g, old(disk), lh)
      ensures disk == Apply(old(disk), InstallWrites(g, old(disk), lh))
    {
      hide Apply;
      ghost var ws := InstallWrites(g, disk, lh);
      ApplyNone(disk, ws);
      var tail := 0;
      while tail < |lh|
        invariant 0 <= tail <= |lh|
        invariant forall b :: b in pinned ==> b in lh[tail..]
        invariant disk == Apply(old(disk), ws[..tail])
        invariant writes == old(writes) + ws[..tail]
      {
        assert g.start + 1 + tail !in pinned;
        ApplyFrame(old(disk), ws[..tail], g.start + 1 + tail);
        var from := Bread(g.start + 1 + tail);
        ApplyNext(old(disk), ws, tail);
        Bwrite(lh[tail], from);
        tail := tail + 1;
      }
      assert ws[..tail] == ws;
      assert forall b :: b !in pinned;
    }

    method WriteHead()
      requires g.Valid() && |disk| == g.nblocks && |lh| <= LOGSIZE && g.start !in pinned
      modifies this`disk, this`pinned, this`writes
      ensures pinned == old(pinned)
      ensures writes == old(writes) + [HeadWrite(g, old(disk), lh)]
      ensures disk == old(disk)[g.start := PutHeader(old(disk)[g.start], lh)]
    {
      var hb := Bread(g.start);
      hb := hb[0 := |lh|];
      var i := 0;
      while i < |lh|
        invariant 0 <= i <= |lh| && |hb| == BLOCK_WORDS
        invariant hb == [|lh|] + lh[..i] + disk[g.start][1 + i..]
      {
        hb := hb[1 + i := lh[i]];
        i := i + 1;
      }
      assert hb == PutHeader(disk[g.start], lh);
      Bwrite(g.start, hb);
      assert pinned == old(pinned);
    }

    method RecoverFromLog()
      requires DiskOk(g, disk) && pinned == map[]
      modifies this`disk, this`pinned, this`writes, this`lh
      ensures lh == [] && pinned == map[]
      ensures disk == Apply(old(disk), RecoverScript(g, old(disk)))
      ensures writes == old(writes) + RecoverScript(g, old(disk))
      ensures DiskOk(g, disk) && Pending(g, disk) == [] && HomeOf(g, disk) == Recovered(g, old(disk))
    {
      hide Apply, RecoverScript, InstallWrites, PutHeader, Recovered, HeadWrite, HomeOf, GoodList;
      RecoverPhases(g, disk);
      RecoverEnds(g, disk);
      lh := GetHeader(disk[g.start]);
      InstallTrans();
      lh := [];
      WriteHead();
    }

    /** The body of commit's `if`. */
    method WriteTransaction()
      requires DiskOk(g, disk) && GoodList(g, lh) && lh != [] && Pinned(lh, pinned)
      modifies this`disk, this`pinned, this`writes, this`lh
      ensures lh == [] && pinned == map[]
      ensures disk == Apply(old(disk), CommitScript(g, old(disk), old(lh), old(pinned)))
      ensures writes == old(writes) + CommitScript(g, old(disk), old(lh), old(pinned))
    {
      hide CommitScript, HomeWrites, LogWrites, InstallWrites, Apply, PutHeader;
      LoggedBlocks(g, disk, lh, pinned);
      CommitPhases(g, disk, lh, pinned);
      ghost var a, h, c := LogWrites(g, lh, pinned), HeadWrite(g, disk, lh), HomeWrites(lh, pinned);
      WriteLog();
      WriteHead();
      assert disk == Logged(g, old(disk), lh, pinned);
      assert writes == old(writes) + (a + [h]);
      InstallTrans();
      assert writes == old(writes) + (a + [h] + c);
      lh := [];
      WriteHead();
      CommitScriptPhases(g, old(disk), old(lh), old(pinned));
    }

    /** The block writes of commit are exactly CommitScript, in that order. */
    method Commit()
      requires Valid() && Pending(g, disk) == []
      modifies this`disk, this`pinned, this`writes, this`lh
      ensures Valid() && lh == [] && pinned == map[]
      ensures disk == Apply(old(disk), CommitScript(g, old(disk), old(lh), old(pinned)))
      ensures writes == old(writes) + CommitScript(g, old(disk), old(lh), old(pinned))
      ensures Pending(g, disk) == [] && HomeOf(g, disk) == Overlay(g, old(disk), old(pinned))
    {
      if |lh| > 0 {
        CommitComplete(g, disk, lh, pinned);
        WriteTransaction();
      } else {
        assert forall b :: b !in pinned;
        assert HomeOf(g, disk) == Overlay(g, disk, pinned);
      }
    }

    /** One pass of begin_op's loop: false means "sleep and look again". */
    method BeginOp() returns (entered: bool)
      requires Valid()
      modifies this`outstanding
      ensures Valid()
      ensures entered == (!old(committing) && !LogMayFill(lh, old(outstanding)))
      ensures outstanding == old(outstanding) + if entered then 1 else 0
    {
      if committing {
        return false;
      } else if |lh| + (outstanding + 1) * MAXOPBLOCKS > LOGSIZE {
        return false;
      } else {
        outstanding := outstanding + 1;
        return true;
      }
    }

    /** The caller has changed block b's buffer to `data`; false means panic. */
    method LogWrite(b: int, data: Block) returns (ok: bool)
      requires Valid() && g.IsHome(b) && !committing
      modifies this`lh, this`pinned
      ensures ok == (!TooBig(g, old(lh)) && outstanding >= 1)
      ensures ok ==> Valid() && lh == Absorb(old(lh), b) && pinned == old(pinned)[b := data]
      ensures ok ==> Overlay(g, disk, pinned) == old(Overlay(g, disk, pinned))[b := data]
      ensures !ok ==> lh == old(lh) && pinned == old(pinned)
    {
      hide GoodList, Pinned, Pending, Overlay, Absorb;
      if |lh| >= LOGSIZE || |lh| >= g.size - 1 {
        return false;
      }
      if outstanding < 1 {
        return false;
      }
      AbsorbOk(g, lh, pinned, b, data);
      OverlayPinned(g, disk, pinned, b, data);
      var i := 0;
      while i < |lh|
        invariant 0 <= i <= |lh| && b !in lh[..i]
      {
        if lh[i] == b {
          break;
        }
        i := i + 1;
      }
      if i == |lh| {
        AbsorbNew(lh, b);
        lh := lh + [b];
      } else {
        AbsorbFound(lh, b, i);
        lh := lh[i := b];
      }
      pinned := pinned[b := data];
      return true;
    }

    /** The end of the last active operation commits; false means panic. */
    method EndOp() returns (ok: bool)
      requires Valid() && outstanding >= 1
      modifies this
      ensures ok == !old(committing)
      ensures ok ==> Valid() && !committing && outstanding == old(outstanding) - 1
      ensures ok ==> Overlay(g, disk, pinned) == old(Overlay(g, disk, pinned))
      ensures ok && outstanding > 0 ==>
        disk == old(disk) && lh == old(lh) && pinned == old(pinned) && writes == old(writes)
      ensures ok && outstanding == 0 ==>
        && lh == [] && pinned == map[]
        && writes == old(writes) + CommitScript(g, old(disk), old(lh), old(pinned))
        && HomeOf(g, disk) == Overlay(g, old(disk), old(pinned))
    {
      var doCommit := false;
      outstanding := outstanding - 1;
      if committing {
        return false;
      }
      if outstanding == 0 {
        doCommit, committing := true, true;
      }
      if doCommit {
        Commit();
        committing := false;
        assert Overlay(g, disk, pinned) == HomeOf(g, disk);
      }
      return true;
    }
  }
}
