/** pipe.c: a 512-byte ring buffer with 32-bit counters that wrap, and any number of
    readers and writers that interleave where they sleep. */
module Pipes {
  import Volume

  type byte = Volume.byte

  const PIPESIZE := 512
  const UINT := 0x1_0000_0000

  /** A system call in progress: ready to run, asleep (on nread for a reader, on nwrite
      for a writer), or returned. */
  datatype Mode = Ready | Asleep | Returned(r: int)

  /** A pipewrite of buf that has stored its first i bytes. */
  datatype Writer = Writer(buf: seq<byte>, i: nat, mode: Mode, killed: bool)

  /** A piperead of up to n bytes that has got the bytes in buf. */
  datatype Reader = Reader(n: nat, buf: seq<byte>, mode: Mode, killed: bool)

  /** The bytes of s that process k moved, by its tag in who. */
  function Part(s: seq<byte>, who: seq<nat>, k: nat): (r: seq<byte>)
    requires |s| == |who|
  {
    if s == [] then [] else Part(s[..|s| - 1], who[..|s| - 1], k) + if who[|s| - 1] == k then [s[|s| - 1]] else []
  }

  lemma PartAppend(s: seq<byte>, who: seq<nat>, b: byte, j: nat, k: nat)
    requires |s| == |who|
    ensures Part(s + [b], who + [j], k) == if j == k then Part(s, who, k) + [b] else Part(s, who, k)
  {
    assert (s + [b])[..|s|] == s && (who + [j])[..|s|] == who;
  }

  lemma {:induction false} PartNone(s: seq<byte>, who: seq<nat>, k: nat)
    requires |s| == |who| && forall j :: 0 <= j < |who| ==> who[j] != k
    ensures Part(s, who, k) == []
  {
    if s == [] {
    } else {
      PartNone(s[..|s| - 1], who[..|s| - 1], k);
    }
  }

  /** What the wrapped counters still tell: with at most 512 bytes between the true
      counts, the two tests of the code are exact. */
  lemma Counters(r: nat, w: nat)
    requires r <= w <= r + PIPESIZE
    ensures w % UINT == (r % UINT + PIPESIZE) % UINT <==> w == r + PIPESIZE
    ensures r % UINT == w % UINT <==> r == w
  {
  }

  /** A wrapped counter still indexes the slot of the true count, and wraps when it is
      incremented as the true count does. */
  lemma Slot(n: nat)
    ensures (n % UINT) % PIPESIZE == n % PIPESIZE
    ensures (n + 1) % UINT == (n % UINT + 1) % UINT
  {
  }

  /** Slots of different bytes in flight differ. */
  lemma OtherSlot(j: nat, w: nat)
    requires j < w < j + PIPESIZE
    ensures j % PIPESIZE != w % PIPESIZE
  {
  }

  /** The ring holds the bytes in flight and the counters are the true counts modulo
      2^32. */
  predicate RingOk(data: seq<byte>, nread: int, nwrite: int, written: seq<byte>, delivered: seq<byte>) {
    && |data| == PIPESIZE && 0 <= nread && 0 <= nwrite
    && |delivered| <= |written| <= |delivered| + PIPESIZE && delivered == written[..|delivered|]
    && nread == |delivered| % UINT && nwrite == |written| % UINT
    && (forall j :: |delivered| <= j < |written| ==> data[j % PIPESIZE] == written[j])
  }

  lemma RingStore(data: seq<byte>, nread: int, nwrite: int, written: seq<byte>, delivered: seq<byte>, b: byte)
    requires RingOk(data, nread, nwrite, written, delivered) && |written| < |delivered| + PIPESIZE
    ensures RingOk(data[nwrite % PIPESIZE := b], nread, (nwrite + 1) % UINT, written + [b], delivered)
  {
    Slot(|written|);
    forall j | |delivered| <= j < |written| ensures j % PIPESIZE != nwrite % PIPESIZE {
      OtherSlot(j, |written|);
    }
  }

  lemma Appended(s: seq<byte>, d: nat, b: byte)
    requires d <= |s|
    ensures (s + [b])[d..] == s[d..] + [b]
  {
  }

  lemma Dropped(s: seq<byte>, d: nat)
    requires d < |s|
    ensures s[d..][1..] == s[d + 1..] && s[d..][..1] == [s[d]]
  {
  }

  lemma RingTake(data: seq<byte>, nread: int, nwrite: int, written: seq<byte>, delivered: seq<byte>)
    requires RingOk(data, nread, nwrite, written, delivered) && |delivered| < |written|
    ensures data[nread % PIPESIZE] == written[|delivered|]
    ensures RingOk(data, (nread + 1) % UINT, nwrite, written, delivered + [written[|delivered|]])
  {
    Slot(|delivered|);
  }

  /** Every writer has stored exactly its first i bytes, in order. */
  predicate WriterTags(ws: seq<Writer>, written: seq<byte>, who: seq<nat>) {
    && |who| == |written|
    && (forall j :: 0 <= j < |who| ==> who[j] < |ws|)
    && (forall k :: 0 <= k < |ws| ==> ws[k].i <= |ws[k].buf| && Part(written, who, k) == ws[k].buf[..ws[k].i])
  }

  /** Every reader has exactly what it took, in order. */
  predicate ReaderTags(rs: seq<Reader>, delivered: seq<byte>, who: seq<nat>) {
    && |who| == |delivered|
    && (forall j :: 0 <= j < |who| ==> who[j] < |rs|)
    && (forall k :: 0 <= k < |rs| ==> |rs[k].buf| <= rs[k].n && Part(delivered, who, k) == rs[k].buf)
  }

  lemma WriterStore(ws: seq<Writer>, written: seq<byte>, who: seq<nat>, k: nat)
    requires WriterTags(ws, written, who) && k < |ws| && ws[k].i < |ws[k].buf|
    ensures WriterTags(ws[k := ws[k].(i := ws[k].i + 1)], written + [ws[k].buf[ws[k].i]], who + [k])
  {
    var b := ws[k].buf[ws[k].i];
    var t := ws[k := ws[k].(i := ws[k].i + 1)];
    forall j | 0 <= j < |t| ensures Part(written + [b], who + [k], j) == t[j].buf[..t[j].i] {
      PartAppend(written, who, b, k, j);
    }
  }

  lemma ReaderTake(rs: seq<Reader>, delivered: seq<byte>, who: seq<nat>, k: nat, b: byte)
    requires ReaderTags(rs, delivered, who) && k < |rs| && |rs[k].buf| < rs[k].n
    ensures ReaderTags(rs[k := rs[k].(buf := rs[k].buf + [b])], delivered + [b], who + [k])
  {
    var t := rs[k := rs[k].(buf := rs[k].buf + [b])];
    forall j | 0 <= j < |t| ensures Part(delivered + [b], who + [k], j) == t[j].buf {
      PartAppend(delivered, who, b, k, j);
    }
  }

  lemma NewWriter(ws: seq<Writer>, written: seq<byte>, who: seq<nat>, buf: seq<byte>)
    requires WriterTags(ws, written, who)
    ensures WriterTags(ws + [Writer(buf, 0, Ready, false)], written, who)
  {
    PartNone(written, who, |ws|);
  }

  lemma NewReader(rs: seq<Reader>, delivered: seq<byte>, who: seq<nat>, n: nat)
    requires ReaderTags(rs, delivered, who)
    ensures ReaderTags(rs + [Reader(n, [], Ready, false)], delivered, who)
  {
    PartNone(delivered, who, |rs|);
  }

  /** wakeup(&p->nread) and wakeup(&p->nwrite). */
  function WokenReaders(rs: seq<Reader>): seq<Reader> {
    seq(|rs|, i requires 0 <= i < |rs| => if rs[i].mode == Asleep then rs[i].(mode := Ready) else rs[i])
  }

  function WokenWriters(ws: seq<Writer>): seq<Writer> {
    seq(|ws|, i requires 0 <= i < |ws| => if ws[i].mode == Asleep then ws[i].(mode := Ready) else ws[i])
  }

  // ---------------------------------------------------------------- a bounded queue

  datatype Event =
    | Write(buf: seq<byte>) | Read(n: nat)
    | RunWriter(k: nat) | RunReader(k: nat)
    | KillWriter(k: nat) | KillReader(k: nat)
    | Close(writable: bool)

  /** What a pipe is for: a queue of at most 512 bytes, two ends, and the calls on it. */
  datatype Queue = Queue(bytes: seq<byte>, readopen: bool, writeopen: bool, writers: seq<Writer>, readers: seq<Reader>)

  const EMPTY := Queue([], true, true, [], [])

  function Min(a: int, b: int): int {
    if a < b then a else b
  }

  /** What a finished pipewrite returns: the number of bytes asked for, all of them stored,
      or -1 with some of them left. */
  predicate WriterReturns(w: Writer) {
    w.mode.Returned? ==> if w.mode.r == -1 then w.i < |w.buf| else w.mode.r == |w.buf| == w.i
  }

  /** What a finished piperead returns: the number of bytes it got, or -1 with none. */
  predicate ReaderReturns(r: Reader) {
    r.mode.Returned? ==> if r.mode.r == -1 then r.buf == [] else r.mode.r == |r.buf|
  }

  /** A call's bookkeeping makes sense, finished calls have returned what they did, and a
      closed end has no call in progress (such a call keeps its file open). */
  predicate QueueOk(q: Queue) {
    && |q.bytes| <= PIPESIZE
    && (forall k :: 0 <= k < |q.writers| ==> q.writers[k].i <= |q.writers[k].buf|)
    && (forall k :: 0 <= k < |q.readers| ==> |q.readers[k].buf| <= q.readers[k].n)
    && (forall k :: 0 <= k < |q.readers| && !q.readers[k].mode.Returned? ==> q.readers[k].buf == [])
    && (forall k :: 0 <= k < |q.writers| ==> WriterReturns(q.writers[k]))
    && (forall k :: 0 <= k < |q.readers| ==> ReaderReturns(q.readers[k]))
    && (!q.readopen ==> forall k :: 0 <= k < |q.readers| ==> q.readers[k].mode.Returned?)
    && (!q.writeopen ==> forall k :: 0 <= k < |q.writers| ==> q.writers[k].mode.Returned?)
  }

  /** How a pipewrite that can store no more goes on: it is done, or the pipe is full and
      it gives up, because it was killed or nobody can read, or sleeps. */
  function WriteEnd(w: Writer, readopen: bool): Mode {
    if w.i >= |w.buf| then Returned(|w.buf|) else if !readopen || w.killed then Returned(-1) else Asleep
  }

  /** Writer k's next m bytes go in. */
  function Stored(q: Queue, k: nat, m: nat): Queue
    requires k < |q.writers| && q.writers[k].i + m <= |q.writers[k].buf|
  {
    var w := q.writers[k];
    q.(bytes := q.bytes + w.buf[w.i..w.i + m], writers := q.writers[k := w.(i := w.i + m)])
  }

  /** Reader k takes the first m bytes out. */
  function Taken(q: Queue, k: nat, m: nat): Queue
    requires k < |q.readers| && m <= |q.bytes|
  {
    var r := q.readers[k];
    q.(bytes := q.bytes[m..], readers := q.readers[k := r.(buf := r.buf + q.bytes[..m])])
  }

  lemma StoredShape(q: Queue, k: nat, m: nat)
    requires k < |q.writers| && q.writers[k].i + m <= |q.writers[k].buf|
    ensures var p := Stored(q, k, m);
      && p == q.(bytes := p.bytes, writers := p.writers) && |p.bytes| == |q.bytes| + m
      && |p.writers| == |q.writers| && p.writers[k] == q.writers[k].(i := q.writers[k].i + m)
  {
  }

  lemma StoredNothing(q: Queue, k: nat)
    requires k < |q.writers| && q.writers[k].i <= |q.writers[k].buf|
    ensures Stored(q, k, 0) == q
  {
    assert q.bytes + q.writers[k].buf[q.writers[k].i..q.writers[k].i + 0] == q.bytes;
  }

  lemma TakenNothing(q: Queue, k: nat)
    requires k < |q.readers|
    ensures Taken(q, k, 0) == q
  {
    assert q.readers[k].buf + q.bytes[..0] == q.readers[k].buf && q.bytes[0..] == q.bytes;
  }

  lemma StoredNext(q: Queue, k: nat, m: nat)
    requires k < |q.writers| && q.writers[k].i + m < |q.writers[k].buf|
    ensures Stored(Stored(q, k, m), k, 1) == Stored(q, k, m + 1)
  {
    var w := q.writers[k];
    assert w.buf[w.i..w.i + m] + w.buf[w.i + m..w.i + m + 1] == w.buf[w.i..w.i + m + 1];
  }

  lemma TakenNext(q: Queue, k: nat, m: nat)
    requires k < |q.readers| && m < |q.bytes|
    ensures Taken(Taken(q, k, m), k, 1) == Taken(q, k, m + 1)
  {
    var r := q.readers[k];
    assert r.buf + q.bytes[..m] + q.bytes[m..][..1] == r.buf + q.bytes[..m + 1];
    assert q.bytes[m..][1..] == q.bytes[m + 1..];
  }

  /** pipewrite up to its next sleep or return: it stores as many bytes as fit and wakes
      the readers, except when it gives up. */
  function WriteSpec(q: Queue, k: nat): Queue
    requires k < |q.writers| && q.writers[k].i <= |q.writers[k].buf| && |q.bytes| <= PIPESIZE
  {
    var p := Stored(q, k, Min(|q.writers[k].buf| - q.writers[k].i, PIPESIZE - |q.bytes|));
    var m := WriteEnd(p.writers[k], q.readopen);
    p.(writers := p.writers[k := p.writers[k].(mode := m)],
       readers := if m == Returned(-1) then q.readers else WokenReaders(q.readers))
  }

  /** piperead up to its next sleep or return. */
  function ReadSpec(q: Queue, k: nat): Queue
    requires k < |q.readers| && |q.readers[k].buf| <= q.readers[k].n
  {
    var r := q.readers[k];
    if q.bytes == [] && q.writeopen
    then q.(readers := q.readers[k := r.(mode := if r.killed then Returned(-1) else Asleep)])
    else
      var p := Taken(q, k, Min(r.n - |r.buf|, |q.bytes|));
      p.(readers := p.readers[k := p.readers[k].(mode := Returned(|p.readers[k].buf|))],
         writers := WokenWriters(q.writers))
  }

  /** pipeclose. */
  function CloseSpec(q: Queue, writable: bool): Queue {
    if writable then q.(writeopen := false, readers := WokenReaders(q.readers))
    else q.(readopen := false, writers := WokenWriters(q.writers))
  }

  /** Nobody is in a call on that end, so its last file may be closed. */
  predicate Closable(ws: seq<Writer>, rs: seq<Reader>, writable: bool) {
    if writable then forall k :: 0 <= k < |ws| ==> ws[k].mode.Returned?
    else forall k :: 0 <= k < |rs| ==> rs[k].mode.Returned?
  }

  function WakeMode(m: Mode): Mode {
    if m == Asleep then Ready else m
  }

  /** One event: a call starts, a ready call runs to its next sleep or return, a process
      is killed (which wakes it), or an end is closed. An event that cannot happen now
      does nothing. */
  function Next(q: Queue, e: Event): Queue
    requires QueueOk(q)
  {
    match e
    case Write(buf) => if q.writeopen then q.(writers := q.writers + [Writer(buf, 0, Ready, false)]) else q
    case Read(n) => if q.readopen then q.(readers := q.readers + [Reader(n, [], Ready, false)]) else q
    case RunWriter(k) => if k < |q.writers| && q.writers[k].mode == Ready then WriteSpec(q, k) else q
    case RunReader(k) => if k < |q.readers| && q.readers[k].mode == Ready then ReadSpec(q, k) else q
    case KillWriter(k) =>
      if k >= |q.writers| then q
      else q.(writers := q.writers[k := q.writers[k].(killed := true, mode := WakeMode(q.writers[k].mode))])
    case KillReader(k) =>
      if k >= |q.readers| then q
      else q.(readers := q.readers[k := q.readers[k].(killed := true, mode := WakeMode(q.readers[k].mode))])
    case Close(writable) => if Closable(q.writers, q.readers, writable) then CloseSpec(q, writable) else q
  }

  lemma WriteOk(q: Queue, k: nat)
    requires QueueOk(q) && k < |q.writers| && q.writers[k].mode == Ready
    ensures QueueOk(WriteSpec(q, k))
  {
  }

  lemma ReadOk(q: Queue, k: nat)
    requires QueueOk(q) && k < |q.readers| && q.readers[k].mode == Ready
    ensures QueueOk(ReadSpec(q, k))
  {
  }

  lemma CloseOk(q: Queue, writable: bool)
    requires QueueOk(q) && Closable(q.writers, q.readers, writable)
    ensures QueueOk(CloseSpec(q, writable))
  {
  }

  lemma NextOk(q: Queue, e: Event)
    requires QueueOk(q)
    ensures QueueOk(Next(q, e))
  {
    hide WriteSpec, ReadSpec, CloseSpec, Closable;
    if e.RunWriter? && e.k < |q.writers| && q.writers[e.k].mode == Ready {
      WriteOk(q, e.k);
    } else if e.RunReader? && e.k < |q.readers| && q.readers[e.k].mode == Ready {
      ReadOk(q, e.k);
    } else if e.Close? && Closable(q.writers, q.readers, e.writable) {
      CloseOk(q, e.writable);
    }
  }

  /** The queue after the first n events. */
  function After(q: Queue, es: seq<Event>, n: nat): (r: Queue)
    requires QueueOk(q) && n <= |es|
    ensures QueueOk(r)
  {
    if n == 0 then q
    else
      NextOk(After(q, es, n - 1), es[n - 1]);
      Next(After(q, es, n - 1), es[n - 1])
  }

  /** No reader sleeps while there is something to read, or nobody left to write it. */
  predicate ReadersSound(q: Queue) {
    forall k :: 0 <= k < |q.readers| && q.readers[k].mode == Asleep ==> q.bytes == [] && q.writeopen
  }

  /** No writer sleeps while there is room, or nobody left to read. */
  predicate WritersSound(q: Queue) {
    forall k :: 0 <= k < |q.writers| && q.writers[k].mode == Asleep ==> |q.bytes| == PIPESIZE && q.readopen
  }

  /** A writer that was killed and has more than 512 bytes left is about to run while some
      reader sleeps. */
  predicate Strands(q: Queue, e: Event) {
    && e.RunWriter? && e.k < |q.writers| && q.writers[e.k].mode == Ready && q.writers[e.k].killed
    && |q.writers[e.k].buf| - q.writers[e.k].i > PIPESIZE
    && exists j :: 0 <= j < |q.readers| && q.readers[j].mode == Asleep
  }

  lemma WritersStep(q: Queue, e: Event)
    requires QueueOk(q) && WritersSound(q)
    ensures WritersSound(Next(q, e))
  {
  }

  /** A step leaves a reader asleep over unread bytes exactly when it is such a writer's. */
  lemma ReadersStep(q: Queue, e: Event)
    requires QueueOk(q) && ReadersSound(q)
    ensures ReadersSound(Next(q, e)) <==> !Strands(q, e)
  {
    if Strands(q, e) {
      var j :| 0 <= j < |q.readers| && q.readers[j].mode == Asleep;
      assert q.bytes == [];
      assert Next(q, e).readers[j].mode == Asleep && |Next(q, e).bytes| == PIPESIZE;
    }
  }

  // ---------------------------------------------------------------- what a call does

  /** piperead sleeps exactly on an empty pipe that can still be written, gives up exactly
      there when killed, and otherwise takes the oldest bytes, as many as it may or as there
      are. */
  lemma ReadOutcome(q: Queue, k: nat)
    requires QueueOk(q) && k < |q.readers| && q.readers[k].mode == Ready
    ensures var p := Next(q, RunReader(k)); var r, m := q.readers[k], p.readers[k].mode;
      && (m == Asleep <==> q.bytes == [] && q.writeopen && !r.killed)
      && (m == Returned(-1) <==> q.bytes == [] && q.writeopen && r.killed)
      && (m == Returned(r.n) || p.bytes == [])
      && m != Ready && p.readers[k].buf + p.bytes == q.bytes
      && (forall j :: 0 <= j < |q.readers| && j != k ==> p.readers[j] == q.readers[j])
  {
    var t := Taken(q, k, Min(q.readers[k].n - |q.readers[k].buf|, |q.bytes|));
    assert t.readers[k].buf + t.bytes == q.bytes;
  }

  /** pipewrite stores the next bytes behind those in the pipe until it has stored all or
      the pipe is full; then it sleeps, or gives up exactly when killed or without readers. */
  lemma WriteOutcome(q: Queue, k: nat)
    requires QueueOk(q) && k < |q.writers| && q.writers[k].mode == Ready
    ensures var p := Next(q, RunWriter(k)); var w, w' := q.writers[k], p.writers[k];
      && w.i <= w'.i <= |w'.buf| == |w.buf| && p.bytes == q.bytes + w.buf[w.i..w'.i]
      && (w'.mode == Returned(|w.buf|) <==> w'.i == |w.buf|)
      && (w'.i < |w.buf| ==> |p.bytes| == PIPESIZE)
      && (w'.mode == Asleep <==> w'.i < |w.buf| && q.readopen && !w.killed)
      && w'.mode != Ready
      && (forall j :: 0 <= j < |q.writers| && j != k ==> p.writers[j] == q.writers[j])
  {
  }

  function Buffers(ws: seq<Writer>): seq<seq<byte>> {
    seq(|ws|, i requires 0 <= i < |ws| => ws[i].buf)
  }

  function Sizes(rs: seq<Reader>): seq<nat> {
    seq(|rs|, i requires 0 <= i < |rs| => rs[i].n)
  }

  /** The calls on a pipe are those made while their end was open, with what they asked
      for. */
  lemma CallsKept(q: Queue, e: Event)
    requires QueueOk(q)
    ensures Buffers(Next(q, e).writers) == Buffers(q.writers) + if e.Write? && q.writeopen then [e.buf] else []
    ensures Sizes(Next(q, e).readers) == Sizes(q.readers) + if e.Read? && q.readopen then [e.n] else []
  {
    hide QueueOk;
  }

  /** Killing a process in a pipe call ends the call: the next time it runs, it returns. */
  lemma KilledReturns(q: Queue, k: nat)
    requires QueueOk(q)
    ensures k < |q.readers| ==> QueueOk(Next(q, KillReader(k))) && QueueOk(Next(Next(q, KillReader(k)), RunReader(k)))
    ensures k < |q.readers| ==> Next(Next(q, KillReader(k)), RunReader(k)).readers[k].mode.Returned?
    ensures k < |q.writers| ==> QueueOk(Next(q, KillWriter(k))) && QueueOk(Next(Next(q, KillWriter(k)), RunWriter(k)))
    ensures k < |q.writers| ==> Next(Next(q, KillWriter(k)), RunWriter(k)).writers[k].mode.Returned?
  {
    hide QueueOk, WriteSpec, ReadSpec;
    if k < |q.readers| {
      NextOk(q, KillReader(k));
      var p := Next(q, KillReader(k));
      NextOk(p, RunReader(k));
      if p.readers[k].mode == Ready {
        ReadOutcome(p, k);
      }
    }
    if k < |q.writers| {
      NextOk(q, KillWriter(k));
      var p := Next(q, KillWriter(k));
      NextOk(p, RunWriter(k));
      if p.writers[k].mode == Ready {
        WriteOutcome(p, k);
      }
    }
  }

  /** End of file: the write end is closed and no reader waits. */
  predicate Ended(q: Queue) {
    !q.writeopen && forall k :: 0 <= k < |q.readers| ==> q.readers[k].mode != Asleep
  }

  /** A broken pipe: the read end is closed and no writer waits. */
  predicate Broken(q: Queue) {
    !q.readopen && forall k :: 0 <= k < |q.writers| ==> q.writers[k].mode != Asleep
  }

  lemma EndedStep(q: Queue, e: Event)
    requires QueueOk(q)
    ensures Ended(q) || (e == Close(true) && Closable(q.writers, q.readers, true)) ==> Ended(Next(q, e))
    ensures Broken(q) || (e == Close(false) && Closable(q.writers, q.readers, false)) ==> Broken(Next(q, e))
  {
  }

  /** In every run, from the moment an end is closed, no call on the other end ever sleeps
      again. */
  lemma {:induction false} ClosedForGood(q: Queue, es: seq<Event>, m: nat, n: nat)
    requires QueueOk(q) && m < n <= |es| && es[m].Close?
    requires Closable(After(q, es, m).writers, After(q, es, m).readers, es[m].writable)
    ensures if es[m].writable then Ended(After(q, es, n)) else Broken(After(q, es, n))
  {
    hide QueueOk, Next, Closable, Ended, Broken;
    EndedStep(After(q, es, n - 1), es[n - 1]);
    if m < n - 1 {
      ClosedForGood(q, es, m, n - 1);
    }
  }

  lemma WriterReady(q: Queue, k: nat)
    requires QueueOk(q) && k < |q.writers| && q.writers[k].mode == Ready
    ensures q.writers[k].i <= |q.writers[k].buf| && |q.bytes| <= PIPESIZE
    ensures ReadersSound(q) ==> (ReadersSound(WriteSpec(q, k)) <==> !Strands(q, RunWriter(k)))
  {
    hide ReadersSound, Strands, WriteSpec;
    if ReadersSound(q) {
      ReadersStep(q, RunWriter(k));
    }
  }

  lemma ReaderReady(q: Queue, k: nat)
    requires QueueOk(q) && k < |q.readers|
    ensures |q.readers[k].buf| <= q.readers[k].n
  {
  }

  /** In every run no writer sleeps on a pipe with room. */
  lemma {:induction false} WritersRun(q: Queue, es: seq<Event>, n: nat)
    requires QueueOk(q) && WritersSound(q) && n <= |es|
    ensures WritersSound(After(q, es, n))
  {
    if n == 0 {
    } else {
      WritersRun(q, es, n - 1);
      WritersStep(After(q, es, n - 1), es[n - 1]);
    }
  }

  predicate SoundAt(q: Queue, es: seq<Event>, m: nat)
    requires QueueOk(q) && m <= |es|
  {
    ReadersSound(After(q, es, m))
  }

  predicate StrandsAt(q: Queue, es: seq<Event>, m: nat)
    requires QueueOk(q) && m < |es|
  {
    Strands(After(q, es, m), es[m])
  }

  lemma SoundStart(q: Queue, es: seq<Event>)
    requires QueueOk(q) && ReadersSound(q)
    ensures SoundAt(q, es, 0)
  {
  }

  lemma SoundStep(q: Queue, es: seq<Event>, m: nat)
    requires QueueOk(q) && m < |es| && SoundAt(q, es, m)
    ensures SoundAt(q, es, m + 1) <==> !StrandsAt(q, es, m)
  {
    hide ReadersSound, Strands, Next, QueueOk;
    ReadersStep(After(q, es, m), es[m]);
  }

  predicate AllSound(q: Queue, es: seq<Event>, n: nat)
    requires QueueOk(q) && n <= |es|
  {
    forall m :: 0 <= m <= n ==> SoundAt(q, es, m)
  }

  predicate NoneStrands(q: Queue, es: seq<Event>, n: nat)
    requires QueueOk(q) && n <= |es|
  {
    forall m :: 0 <= m < n ==> !StrandsAt(q, es, m)
  }

  /** No reader ever sleeps over unread bytes in a run if and only if no event of it lets a
      killed writer with more than 512 bytes left run while a reader sleeps. */
  lemma {:induction false} ReadersRun(q: Queue, es: seq<Event>, n: nat)
    requires QueueOk(q) && ReadersSound(q) && n <= |es|
    ensures AllSound(q, es, n) <==> NoneStrands(q, es, n)
  {
    hide SoundAt, StrandsAt, QueueOk, ReadersSound;
    if n == 0 {
      SoundStart(q, es);
    } else {
      ReadersRun(q, es, n - 1);
      if SoundAt(q, es, n - 1) {
        SoundStep(q, es, n - 1);
      }
    }
  }

  lemma RunSound(q: Queue, es: seq<Event>)
    requires QueueOk(q)
    ensures WritersSound(q) ==> WritersSound(After(q, es, |es|))
    ensures ReadersSound(q) && NoneStrands(q, es, |es|) ==> ReadersSound(After(q, es, |es|))
  {
    hide QueueOk, After, WritersSound, ReadersSound, NoneStrands;
    if WritersSound(q) {
      WritersRun(q, es, |es|);
    }
    if ReadersSound(q) && NoneStrands(q, es, |es|) {
      ReadersRun(q, es, |es|);
      assert SoundAt(q, es, |es|);
    }
  }

  class Pipe {
    const data: array<byte>
    var nread: int
    var nwrite: int
    var readopen: bool
    var writeopen: bool
    var writers: seq<Writer>
    var readers: seq<Reader>
    /** All bytes stored and all bytes taken out so far, with who did. */
    ghost var written: seq<byte>
    ghost var writtenBy: seq<nat>
    ghost var delivered: seq<byte>
    ghost var deliveredTo: seq<nat>

    ghost predicate Valid()
      reads this, data
    {
      && RingOk(data[..], nread, nwrite, written, delivered)
      && WriterTags(writers, written, writtenBy) && ReaderTags(readers, delivered, deliveredTo)
    }

    /** The queue that this pipe is. */
    ghost function Value(): Queue
      reads this
    {
      Queue(if |delivered| <= |written| then written[|delivered|..] else [], readopen, writeopen, writers, readers)
    }

    /** pipealloc. */
    constructor ()
      ensures Valid() && fresh(data) && written == [] && delivered == [] && Value() == EMPTY
    {
      data := new byte[PIPESIZE];
      nread, nwrite, readopen, writeopen := 0, 0, true, true;
      writers, readers, written, writtenBy, delivered, deliveredTo := [], [], [], [], [], [];
    }

    method StoreByte(k: nat)
      requires Valid() && k < |writers| && writers[k].i < |writers[k].buf| && |Value().bytes| < PIPESIZE
      modifies this`nwrite, this`writers, this`written, this`writtenBy, data
      ensures Valid() && Value() == Stored(old(Value()), k, 1) && old(written) <= written
    {
      hide RingOk, WriterTags, ReaderTags;
      Shape();
      var b := writers[k].buf[writers[k].i];
      RingStore(data[..], nread, nwrite, written, delivered, b);
      WriterStore(writers, written, writtenBy, k);
      Appended(written, |delivered|, b);
      data[nwrite % PIPESIZE] := b;
      nwrite := (nwrite + 1) % UINT;
      writers := writers[k := writers[k].(i := writers[k].i + 1)];
      written, writtenBy := written + [b], writtenBy + [k];
    }

    method TakeByte(k: nat)
      requires Valid() && k < |readers| && |readers[k].buf| < readers[k].n && |Value().bytes| > 0
      modifies this`nread, this`readers, this`delivered, this`deliveredTo
      ensures Valid() && Value() == Taken(old(Value()), k, 1) && old(delivered) <= delivered
    {
      hide RingOk, WriterTags, ReaderTags;
      Shape();
      RingTake(data[..], nread, nwrite, written, delivered);
      var b := data[nread % PIPESIZE];
      ReaderTake(readers, delivered, deliveredTo, k, b);
      Dropped(written, |delivered|);
      nread := (nread + 1) % UINT;
      readers := readers[k := readers[k].(buf := readers[k].buf + [b])];
      delivered, deliveredTo := delivered + [b], deliveredTo + [k];
    }

    lemma Shape()
      requires Valid()
      ensures data.Length == PIPESIZE && 0 <= nread && 0 <= nwrite
      ensures |delivered| <= |written| <= |delivered| + PIPESIZE
    {
    }

    /** The loop of pipewrite, up to the point where the pipe is full. */
    method StoreBytes(k: nat)
      requires Valid() && k < |writers| && writers[k].i <= |writers[k].buf| && |Value().bytes| <= PIPESIZE
      modifies this`nwrite, this`writers, this`written, this`writtenBy, data
      ensures Valid() && old(written) <= written
      ensures var q := old(Value());
        Value() == Stored(q, k, Min(|q.writers[k].buf| - q.writers[k].i, PIPESIZE - |q.bytes|))
    {
      hide Valid, Stored;
      ghost var q := Value();
      ghost var w := q.writers[k];
      var buf, i := writers[k].buf, writers[k].i;
      StoredNothing(q, k);
      while i < |buf|
        invariant Valid() && w.i <= i <= |buf| && Value() == Stored(q, k, i - w.i) && |Value().bytes| <= PIPESIZE
        invariant old(written) <= written
      {
        Fullness();
        StoredShape(q, k, i - w.i);
        if nwrite == (nread + PIPESIZE) % UINT {
          return;
        }
        StoredNext(q, k, i - w.i);
        StoreByte(k);
        StoredShape(q, k, i - w.i + 1);
        i := i + 1;
      }
      StoredShape(q, k, i - w.i);
    }

    /** The part of a pipewrite between two sleeps: it stores bytes until all are stored,
        or the pipe is full; then it sleeps, or gives up if it was killed or nobody can
        read. Giving up wakes nobody, so a sleeping reader is left over unread bytes
        exactly when this writer was killed and has more than 512 bytes left. */
    method PipeWrite(k: nat)
      requires Valid() && QueueOk(Value()) && k < |writers| && writers[k].mode == Ready
      modifies this`nwrite, this`writers, this`readers, this`written, this`writtenBy, data
      ensures Valid() && Value() == WriteSpec(old(Value()), k) && old(written) <= written
      ensures old(ReadersSound(Value())) ==> (ReadersSound(Value()) <==> !Strands(old(Value()), RunWriter(k)))
    {
      hide Valid, ReadersSound, Strands, WokenReaders, QueueOk, WriteEnd, Stored;
      ghost var q := Value();
      WriterReady(q, k);
      StoredShape(q, k, Min(|q.writers[k].buf| - q.writers[k].i, PIPESIZE - |q.bytes|));
      StoreBytes(k);
      EndWrite(k);
    }

    /** The rest of pipewrite, when no more bytes can be stored. */
    method EndWrite(k: nat)
      requires Valid() && k < |writers|
      modifies this`writers, this`readers
      ensures Valid()
      ensures var m := WriteEnd(old(writers)[k], readopen);
        && writers == old(writers)[k := old(writers)[k].(mode := m)]
        && readers == if m == Returned(-1) then old(readers) else WokenReaders(old(readers))
    {
      hide Valid, WokenReaders;
      if writers[k].i < |writers[k].buf| {
        if !readopen || writers[k].killed {
          Relabel(k, Returned(-1));
          return;
        }
        WakeReaders();
        Relabel(k, Asleep);
        return;
      }
      WakeReaders();
      Relabel(k, Returned(|writers[k].buf|));
    }

    /** The code's tests for a full and for an empty pipe are exact. */
    lemma Fullness()
      requires Valid()
      ensures nwrite == (nread + PIPESIZE) % UINT <==> |Value().bytes| == PIPESIZE
      ensures nread == nwrite <==> |Value().bytes| == 0
      ensures |Value().bytes| <= PIPESIZE
    {
      Counters(|delivered|, |written|);
    }

    method Relabel(k: nat, m: Mode)
      requires Valid() && k < |writers|
      modifies this`writers
      ensures Valid() && writers == old(writers)[k := old(writers)[k].(mode := m)]
    {
      writers := writers[k := writers[k].(mode := m)];
    }

    method WakeReaders()
      requires Valid()
      modifies this`readers
      ensures Valid() && readers == WokenReaders(old(readers))
    {
      readers := WokenReaders(readers);
    }
  
    method WakeWriters()
      requires Valid()
      modifies this`writers
      ensures Valid() && writers == WokenWriters(old(writers))
    {
      writers := WokenWriters(writers);
    }

    method RelabelReader(k: nat, m: Mode)
      requires Valid() && k < |readers|
      modifies this`readers
      ensures Valid() && readers == old(readers)[k := old(readers)[k].(mode := m)]
    {
      readers := readers[k := readers[k].(mode := m)];
    }

    /** The copy loop of piperead. */
    method TakeBytes(k: nat)
      requires Valid() && k < |readers| && |readers[k].buf| <= readers[k].n
      modifies this`nread, this`readers, this`delivered, this`deliveredTo
      ensures Valid() && old(delivered) <= delivered
      ensures var q := old(Value());
        Value() == Taken(q, k, Min(q.readers[k].n - |q.readers[k].buf|, |q.bytes|))
    {
      hide Valid;
      ghost var q := Value();
      ghost var m := 0;
      TakenNothing(q, k);
      while |readers[k].buf| < readers[k].n
        invariant Valid() && 0 <= m <= |q.bytes| && Value() == Taken(q, k, m)
        invariant |readers[k].buf| <= readers[k].n && old(delivered) <= delivered
        decreases readers[k].n - |readers[k].buf|
      {
        Fullness();
        if nread == nwrite {
          return;
        }
        TakenNext(q, k, m);
        TakeByte(k);
        m := m + 1;
      }
    }

    /** The part of a piperead between two sleeps: it sleeps on an empty pipe that can
        still be written, unless it was killed; otherwise it takes what there is, up to n
        bytes, and wakes the writers. */
    method PipeRead(k: nat)
      requires Valid() && QueueOk(Value()) && k < |readers| && readers[k].mode == Ready
      modifies this`nread, this`readers, this`writers, this`delivered, this`deliveredTo
      ensures Valid() && Value() == ReadSpec(old(Value()), k) && old(delivered) <= delivered
    {
      hide Valid, WokenWriters, QueueOk;
      ReaderReady(Value(), k);
      Fullness();
      if nread == nwrite && writeopen {
        RelabelReader(k, if readers[k].killed then Returned(-1) else Asleep);
        return;
      }
      TakeBytes(k);
      WakeWriters();
      RelabelReader(k, Returned(|readers[k].buf|));
    }

    /** What has been delivered is a prefix of what was written, with at most 512 bytes to
        come. */
    lemma Prefix()
      requires Valid()
      ensures delivered <= written && delivered == written[..|delivered|] && |written| <= |delivered| + PIPESIZE
    {
    }

    /** pipeclose; the last close, which frees the pipe, ends the run. */
    method PipeClose(writable: bool)
      requires Valid()
      modifies this`readopen, this`writeopen, this`readers, this`writers
      ensures Valid() && Value() == CloseSpec(old(Value()), writable)
    {
      if writable {
        writeopen := false;
        WakeReaders();
      } else {
        readopen := false;
        WakeWriters();
      }
    }

    /** Each event does to the pipe what it does to the queue. */
    method Handle(e: Event)
      requires Valid() && QueueOk(Value())
      modifies this, data
      ensures Valid() && Value() == Next(old(Value()), e)
      ensures old(written) <= written && old(delivered) <= delivered
    {
      hide RingOk, WriterTags, ReaderTags, Part, WriteSpec, ReadSpec, CloseSpec, ReadersSound;
      match e
      case Write(buf) =>
        if writeopen {
          NewWriter(writers, written, writtenBy, buf);
          writers := writers + [Writer(buf, 0, Ready, false)];
        }
      case Read(n) =>
        if readopen {
          NewReader(readers, delivered, deliveredTo, n);
          readers := readers + [Reader(n, [], Ready, false)];
        }
      case RunWriter(k) =>
        if k < |writers| && writers[k].mode == Ready {
          PipeWrite(k);
        }
      case RunReader(k) =>
        if k < |readers| && readers[k].mode == Ready {
          PipeRead(k);
        }
      case KillWriter(k) =>
        if k < |writers| {
          Killed(k);
        }
      case KillReader(k) =>
        if k < |readers| {
          KilledReader(k);
        }
      case Close(writable) =>
        if Closable(writers, readers, writable) {
          PipeClose(writable);
        }
    }

    method Killed(k: nat)
      requires Valid() && k < |writers|
      modifies this`writers
      ensures Valid()
      ensures writers == old(writers)[k := old(writers)[k].(killed := true, mode := WakeMode(old(writers)[k].mode))]
    {
      var w := writers[k];
      writers := writers[k := w.(killed := true, mode := WakeMode(w.mode))];
    }

    method KilledReader(k: nat)
      requires Valid() && k < |readers|
      modifies this`readers
      ensures Valid()
      ensures readers == old(readers)[k := old(readers)[k].(killed := true, mode := WakeMode(old(readers)[k].mode))]
    {
      var r := readers[k];
      readers := readers[k := r.(killed := true, mode := WakeMode(r.mode))];
    }

    /** Every run: the pipe stays the bounded queue, so bytes come out in the order they
        went in, at most 512 are in flight, and each writer's and each reader's share is
        in order. */
    method Run(es: seq<Event>)
      requires Valid() && QueueOk(Value())
      modifies this, data
      ensures Valid() && Value() == After(old(Value()), es, |es|)
      ensures delivered <= written && |written| <= |delivered| + PIPESIZE
      ensures old(written) <= written && old(delivered) <= delivered
      ensures old(WritersSound(Value())) ==> WritersSound(Value())
      ensures old(ReadersSound(Value())) && NoneStrands(old(Value()), es, |es|) ==> ReadersSound(Value())
    {
      hide Valid, QueueOk, Next, WritersSound, ReadersSound, NoneStrands;
      ghost var q := Value();
      RunSound(q, es);
      var i := 0;
      while i < |es|
        invariant 0 <= i <= |es| && Valid() && Value() == After(q, es, i)
        invariant old(written) <= written && old(delivered) <= delivered
      {
        Handle(es[i]);
        i := i + 1;
      }
      Prefix();
    }
  }

  /** A run that strands a reader: it sleeps on the empty pipe, and a killed writer of 513
      bytes stores 512 and gives up. */
  lemma StrandedReader()
    ensures var q := After(EMPTY, Stranding(), 5);
      |q.bytes| == PIPESIZE && |q.readers| == 1 && q.readers[0].mode == Asleep && !ReadersSound(q)
  {
    var es := Stranding();
    var q1 := EMPTY.(readers := [Reader(1, [], Ready, false)]);
    var q2 := EMPTY.(readers := [Reader(1, [], Asleep, false)]);
    var buf := Volume.Zeros(PIPESIZE + 1);
    var q3 := q2.(writers := [Writer(buf, 0, Ready, false)]);
    var q4 := q2.(writers := [Writer(buf, 0, Ready, true)]);
    assert After(EMPTY, es, 1) == q1;
    assert After(EMPTY, es, 2) == q2;
    assert After(EMPTY, es, 3) == q3;
    assert After(EMPTY, es, 4) == q4;
    hide Next;
    StrandedStep(q4, buf);
  }

  lemma StrandedStep(q: Queue, buf: seq<byte>)
    requires |buf| == PIPESIZE + 1
    requires q == Queue([], true, true, [Writer(buf, 0, Ready, true)], [Reader(1, [], Asleep, false)])
    ensures QueueOk(q)
    ensures |Next(q, RunWriter(0)).bytes| == PIPESIZE && Next(q, RunWriter(0)).readers == q.readers
  {
  }

  function Stranding(): seq<Event> {
    [Read(1), RunReader(0), Write(Volume.Zeros(PIPESIZE + 1)), KillWriter(0), RunWriter(0)]
  }
}
