/** Every run of the logging system (log.c): concurrent operations that begin,
    log blocks and end, commits that write one block at a time, and crashes at any
    moment, including in the middle of a commit or of a recovery. */
module LogRuns {
  import opened Basics
  import opened RedoLog

  /** Committing and Recovering remember the disk they started from and how many
      writes of their script have reached the disk. */
  datatype Phase =
    | Running
    | Committing(origin: Disk, done: nat)
    | Recovering(origin: Disk, done: nat)

  /** `ops` holds, for each active operation, the set of blocks it has logged. */
  datatype State = State(disk: Disk, pinned: map<int, Block>, lh: seq<int>, ops: seq<set<int>>, phase: Phase)

  /** The state together with its specification: `current` is what the file
      system has written, `durable` is what the last completed header write made
      permanent. */
  datatype World = World(s: State, durable: Home, current: Home)

  datatype Event =
    | Begin
    | Modify(op: nat, b: int, data: Block)
    | End(op: nat)
    | DiskWrite
    | Finish
    | Crash

  datatype Outcome = Disabled | Panic | Ok(w: World)

  /** What an operation promises before logging block b, having logged `mine`:
      at most MAXOPBLOCKS distinct blocks, or (strict) fewer than MAXOPBLOCKS
      distinct blocks before every call of log_write. */
  predicate Allowed(strict: bool, mine: set<int>, b: int) {
    if strict then |mine| < MAXOPBLOCKS else |mine + {b}| <= MAXOPBLOCKS
  }

  function Boot(g: Geometry, image: Disk): World
    requires DiskOk(g, image)
  {
    var home := Recovered(g, image);
    World(State(image, map[], Pending(g, image), [], Recovering(image, 0)), home, home)
  }

  function Without<T>(xs: seq<T>, i: nat): seq<T>
    requires i < |xs|
  {
    xs[..i] + xs[i + 1..]
  }

  /** The writes of the running commit or recovery. */
  function Script(g: Geometry, s: State): seq<Write> {
    match s.phase
    case Running => []
    case Committing(o, _) =>
      if g.Valid() && |o| == g.nblocks && |s.lh| <= LOGSIZE && Pinned(s.lh, s.pinned)
      then CommitScript(g, o, s.lh, s.pinned) else []
    case Recovering(o, _) =>
      if DiskOk(g, o) then RecoverScript(g, o) else []
  }

  function Next(g: Geometry, strict: bool, w: World, e: Event): Outcome {
    var s := w.s;
    match e
    case Begin =>
      if !s.phase.Running? || LogMayFill(s.lh, |s.ops|) then Disabled
      else Ok(w.(s := s.(ops := s.ops + [{}])))
    case Modify(op, b, data) =>
      if !s.phase.Running? || op >= |s.ops| || !g.IsHome(b) || !Allowed(strict, s.ops[op], b) then Disabled
      else if TooBig(g, s.lh) then Panic
      else Ok(w.(s := s.(lh := Absorb(s.lh, b), pinned := s.pinned[b := data], ops := s.ops[op := s.ops[op] + {b}]),
                 current := w.current[b := data]))
    case End(op) =>
      if !s.phase.Running? || op >= |s.ops| then Disabled
      else
        var ops := Without(s.ops, op);
        Ok(w.(s := s.(ops := ops, phase := if ops == [] then Committing(s.disk, 0) else Running)))
    case DiskWrite =>
      if s.phase.Running? || s.phase.done >= |Script(g, s)| then Disabled
      else
        var k := s.phase.done;
        Ok(w.(s := s.(disk := Apply(s.disk, [Script(g, s)[k]]), phase := s.phase.(done := k + 1)),
              durable := if s.phase.Committing? && k == |s.lh| then w.current else w.durable))
    case Finish =>
      if s.phase.Running? || s.phase.done != |Script(g, s)| then Disabled
      else Ok(w.(s := s.(lh := [], pinned := map[], phase := Running)))
    case Crash =>
      if !DiskOk(g, s.disk) then Disabled
      else Ok(w.(s := State(s.disk, map[], Pending(g, s.disk), [], Recovering(s.disk, 0)), current := w.durable))
  }

  function Run(g: Geometry, strict: bool, image: Disk, es: seq<Event>): Outcome
    requires DiskOk(g, image)
    decreases |es|
  {
    if es == [] then Ok(Boot(g, image))
    else
      var o := Run(g, strict, image, es[..|es| - 1]);
      if o.Ok? then Next(g, strict, o.w, es[|es| - 1]) else o
  }

  // ---------------------------------------------------------------- reserved log space

  /** The log slots still owed to the active operations. */
  function Slack(ops: seq<set<int>>): int
    decreases |ops|
  {
    if ops == [] then 0 else Slack(ops[..|ops| - 1]) + MAXOPBLOCKS - |ops[|ops| - 1]|
  }

  lemma {:induction false} SlackUpdate(ops: seq<set<int>>, i: nat, x: set<int>)
    requires i < |ops|
    ensures Slack(ops[i := x]) == Slack(ops) + |ops[i]| - |x|
    decreases |ops|
  {
    var n := |ops| - 1;
    if i < n {
      SlackUpdate(ops[..n], i, x);
      assert ops[i := x][..n] == ops[..n][i := x];
    } else {
      assert ops[i := x][..n] == ops[..n];
    }
  }

  lemma {:induction false} SlackWithout(ops: seq<set<int>>, i: nat)
    requires i < |ops|
    ensures Slack(Without(ops, i)) == Slack(ops) - MAXOPBLOCKS + |ops[i]|
    decreases |ops|
  {
    var n := |ops| - 1;
    if i < n {
      SlackWithout(ops[..n], i);
      assert Without(ops, i)[..n - 1] == Without(ops[..n], i);
    } else {
      assert Without(ops, i) == ops[..n];
    }
  }

  lemma {:induction false} SlackBounds(ops: seq<set<int>>)
    requires forall i :: 0 <= i < |ops| ==> |ops[i]| <= MAXOPBLOCKS
    ensures 0 <= Slack(ops) <= |ops| * MAXOPBLOCKS
    ensures forall i :: 0 <= i < |ops| ==> MAXOPBLOCKS - |ops[i]| <= Slack(ops)
    decreases |ops|
  {
    if ops == [] {
    } else {
      SlackBounds(ops[..|ops| - 1]);
    }
  }

  predicate Reserved(lh: seq<int>, ops: seq<set<int>>) {
    && (forall i :: 0 <= i < |ops| ==> |ops[i]| <= MAXOPBLOCKS)
    && (forall i, x :: 0 <= i < |ops| && x in ops[i] ==> x in lh)
    && |lh| + Slack(ops) <= LOGSIZE
  }

  // ---------------------------------------------------------------- the invariant

  predicate RunningInv(g: Geometry, w: World)
    requires DiskOk(g, w.s.disk)
  {
    var s := w.s;
    && Pending(g, s.disk) == [] && GoodList(g, s.lh) && Pinned(s.lh, s.pinned) && Reserved(s.lh, s.ops)
    && Overlay(g, s.disk, s.pinned) == w.current
    && (s.ops == [] ==> s.lh == [])
  }

  predicate CommittingInv(g: Geometry, w: World, o: Disk, k: nat) {
    var s := w.s;
    && s.ops == [] && DiskOk(g, o) && Pending(g, o) == [] && GoodList(g, s.lh) && Pinned(s.lh, s.pinned)
    && k <= |CommitScript(g, o, s.lh, s.pinned)|
    && s.disk == Apply(o, CommitScript(g, o, s.lh, s.pinned)[..k])
    && Overlay(g, o, s.pinned) == w.current
  }

  predicate RecoveringInv(g: Geometry, w: World, o: Disk, k: nat) {
    var s := w.s;
    && s.ops == [] && s.pinned == map[] && DiskOk(g, o)
    && k <= |RecoverScript(g, o)|
    && s.disk == Apply(o, RecoverScript(g, o)[..k])
    && w.current == w.durable
  }

  predicate Inv(g: Geometry, w: World) {
    && DiskOk(g, w.s.disk)
    && Recovered(g, w.s.disk) == w.durable
    && match w.s.phase {
         case Running => RunningInv(g, w)
         case Committing(o, k) => CommittingInv(g, w, o, k)
         case Recovering(o, k) => RecoveringInv(g, w, o, k)
       }
  }

  lemma BootInv(g: Geometry, image: Disk)
    requires DiskOk(g, image)
    ensures Inv(g, Boot(g, image))
  {
  }

  lemma BeginInv(g: Geometry, strict: bool, w: World)
    requires Inv(g, w) && Next(g, strict, w, Begin).Ok?
    ensures Inv(g, Next(g, strict, w, Begin).w)
  {
    var ops := w.s.ops;
    SlackBounds(ops);
    assert (ops + [{}])[..|ops|] == ops;
  }

  lemma GrowOp(mine: set<int>, b: int, strict: bool)
    requires Allowed(strict, mine, b)
    ensures |mine| <= |mine + {b}| <= MAXOPBLOCKS
    ensures b !in mine ==> |mine + {b}| == |mine| + 1
    ensures b in mine ==> mine + {b} == mine
  {
    if b in mine {
      assert mine + {b} == mine;
    }
  }

  /** Logging a block that is already listed needs no slot; a new one uses a slot
      of the operation's own reservation. */
  lemma ModifyReserved(lh: seq<int>, ops: seq<set<int>>, op: nat, b: int, strict: bool)
    requires Reserved(lh, ops) && op < |ops| && Allowed(strict, ops[op], b)
    ensures Reserved(Absorb(lh, b), ops[op := ops[op] + {b}])
  {
    GrowOp(ops[op], b, strict);
    SlackUpdate(ops, op, ops[op] + {b});
  }

  lemma ModifyInv(g: Geometry, strict: bool, w: World, op: nat, b: int, data: Block)
    requires Inv(g, w) && Next(g, strict, w, Modify(op, b, data)).Ok?
    ensures Inv(g, Next(g, strict, w, Modify(op, b, data)).w)
  {
    ModifyReserved(w.s.lh, w.s.ops, op, b, strict);
    SlackBounds(w.s.ops[op := w.s.ops[op] + {b}]);
    OverlayPinned(g, w.s.disk, w.s.pinned, b, data);
  }

  lemma EndReserved(lh: seq<int>, ops: seq<set<int>>, op: nat)
    requires Reserved(lh, ops) && op < |ops|
    ensures Reserved(lh, Without(ops, op))
  {
    SlackWithout(ops, op);
    var r := Without(ops, op);
    forall i | 0 <= i < |r| ensures r[i] == ops[if i < op then i else i + 1] {}
  }

  lemma EndInv(g: Geometry, strict: bool, w: World, op: nat)
    requires Inv(g, w) && Next(g, strict, w, End(op)).Ok?
    ensures Inv(g, Next(g, strict, w, End(op)).w)
  {
    hide Reserved, Recovered, Overlay, CommitScript, Script;
    EndReserved(w.s.lh, w.s.ops, op);
    var s := w.s;
    assert CommitScript(g, s.disk, s.lh, s.pinned)[..0] == [];
  }

  /** One more write of a script. */
  lemma ScriptStep(o: Disk, ws: seq<Write>, k: nat)
    requires k < |ws|
    ensures Apply(Apply(o, ws[..k]), [ws[k]]) == Apply(o, ws[..k + 1])
  {
    assert ws[..k + 1] == ws[..k] + [ws[k]];
    ApplyAppend(o, ws[..k], [ws[k]]);
  }

  lemma CommitWriteInv(g: Geometry, strict: bool, w: World)
    requires Inv(g, w) && w.s.phase.Committing? && Next(g, strict, w, DiskWrite).Ok?
    ensures Inv(g, Next(g, strict, w, DiskWrite).w)
  {
    hide CommitScript;
    var s := w.s;
    var Committing(o, k) := s.phase;
    ScriptStep(o, CommitScript(g, o, s.lh, s.pinned), k);
    CommitPrefix(g, o, s.lh, s.pinned, k);
    CommitPrefix(g, o, s.lh, s.pinned, k + 1);
  }

  lemma RecoverWriteInv(g: Geometry, strict: bool, w: World)
    requires Inv(g, w) && w.s.phase.Recovering? && Next(g, strict, w, DiskWrite).Ok?
    ensures Inv(g, Next(g, strict, w, DiskWrite).w)
  {
    hide RecoverScript, Apply, Recovered, RunningInv, CommittingInv;
    var Recovering(o, k) := w.s.phase;
    ScriptStep(o, RecoverScript(g, o), k);
    RecoverPrefix(g, o, k);
    RecoverPrefix(g, o, k + 1);
  }

  /** An empty cache over the disk shows the disk. */
  lemma OverlayNothing(g: Geometry, d: Disk, lh: seq<int>, pinned: map<int, Block>)
    requires |d| == g.nblocks && Pinned(lh, pinned) && lh == []
    ensures Overlay(g, d, pinned) == HomeOf(g, d)
  {
    assert forall b :: b !in pinned;
  }

  lemma CommitFinished(g: Geometry, w: World)
    requires Inv(g, w) && w.s.phase.Committing? && w.s.phase.done == |Script(g, w.s)|
    ensures Pending(g, w.s.disk) == [] && HomeOf(g, w.s.disk) == w.current
  {
    var s := w.s;
    var o := s.phase.origin;
    var ws := CommitScript(g, o, s.lh, s.pinned);
    assert ws[..|ws|] == ws;
    if s.lh == [] {
      OverlayNothing(g, o, s.lh, s.pinned);
    } else {
      CommitComplete(g, o, s.lh, s.pinned);
    }
  }

  lemma RecoverFinished(g: Geometry, w: World)
    requires Inv(g, w) && w.s.phase.Recovering? && w.s.phase.done == |Script(g, w.s)|
    ensures Pending(g, w.s.disk) == [] && HomeOf(g, w.s.disk) == w.current
  {
    var o := w.s.phase.origin;
    var ws := RecoverScript(g, o);
    assert ws[..|ws|] == ws;
    RecoverPrefix(g, o, |ws|);
    NothingPending(g, w.s.disk);
  }

  lemma FinishInv(g: Geometry, strict: bool, w: World)
    requires Inv(g, w) && Next(g, strict, w, Finish).Ok?
    ensures Inv(g, Next(g, strict, w, Finish).w)
    ensures w.durable == w.current == HomeOf(g, w.s.disk)
  {
    if w.s.phase.Committing? {
      CommitFinished(g, w);
    } else {
      RecoverFinished(g, w);
    }
    NothingPending(g, w.s.disk);
    OverlayNothing(g, w.s.disk, [], map[]);
  }

  lemma CrashInv(g: Geometry, strict: bool, w: World)
    requires Inv(g, w) && Next(g, strict, w, Crash).Ok?
    ensures Inv(g, Next(g, strict, w, Crash).w)
  {
    assert RecoverScript(g, w.s.disk)[..0] == [];
  }

  lemma StepInv(g: Geometry, strict: bool, w: World, e: Event)
    requires Inv(g, w) && Next(g, strict, w, e).Ok?
    ensures Inv(g, Next(g, strict, w, e).w)
  {
    match e
    case Begin => BeginInv(g, strict, w);
    case Modify(op, b, data) => ModifyInv(g, strict, w, op, b, data);
    case End(op) => EndInv(g, strict, w, op);
    case DiskWrite =>
      if w.s.phase.Committing? {
        CommitWriteInv(g, strict, w);
      } else {
        RecoverWriteInv(g, strict, w);
      }
    case Finish => FinishInv(g, strict, w);
    case Crash => CrashInv(g, strict, w);
  }

  lemma {:induction false} RunInv(g: Geometry, strict: bool, image: Disk, es: seq<Event>)
    requires DiskOk(g, image) && Run(g, strict, image, es).Ok?
    ensures Inv(g, Run(g, strict, image, es).w)
    decreases |es|
  {
    if es == [] {
      BootInv(g, image);
    } else {
      RunInv(g, strict, image, es[..|es| - 1]);
      StepInv(g, strict, Run(g, strict, image, es[..|es| - 1]).w, es[|es| - 1]);
    }
  }

  // ---------------------------------------------------------------- main theorems

  /** What the invariant says about the home blocks. With no operation active and no commit
      or recovery under way, nothing is left to commit. */
  predicate Faithful(g: Geometry, w: World) {
    && DiskOk(g, w.s.disk) && Recovered(g, w.s.disk) == w.durable
    && (w.s.phase.Running? ==> Overlay(g, w.s.disk, w.s.pinned) == w.current && HomeOf(g, w.s.disk) == w.durable)
    && (w.s.phase.Running? && w.s.lh == [] ==> w.durable == w.current)
    && (w.s.phase.Running? && w.s.ops == [] ==> w.s.lh == [] && w.durable == w.current)
  }

  lemma InvFaithful(g: Geometry, w: World)
    requires Inv(g, w)
    ensures Faithful(g, w)
  {
    if w.s.phase.Running? {
      NothingPending(g, w.s.disk);
      if w.s.lh == [] {
        OverlayNothing(g, w.s.disk, w.s.lh, w.s.pinned);
      }
    }
  }

  /** Durability: in every run, at every moment, recovering the disk as it stands
      yields the durable blocks; while operations run, the cache over the disk shows
      the current blocks. */
  lemma Durability(g: Geometry, strict: bool, image: Disk, es: seq<Event>)
    requires DiskOk(g, image) && Run(g, strict, image, es).Ok?
    ensures Faithful(g, Run(g, strict, image, es).w)
  {
    RunInv(g, strict, image, es);
    InvFaithful(g, Run(g, strict, image, es).w);
  }

  /** What block b holds for the file system after the first n events: what the last
      log_write gave it, unless a crash came later, which takes it back to what was durable
      at that moment. */
  function LastGiven(g: Geometry, strict: bool, image: Disk, es: seq<Event>, n: nat, b: int): Block
    requires DiskOk(g, image) && g.IsHome(b) && n <= |es|
  {
    if n == 0 then Recovered(g, image)[b]
    else
      var o := Run(g, strict, image, es[..n - 1]);
      match es[n - 1]
      case Modify(_, c, data) => if c == b then data else LastGiven(g, strict, image, es, n - 1, b)
      case Crash => if o.Ok? && b in o.w.durable then o.w.durable[b] else LastGiven(g, strict, image, es, n - 1, b)
      case _ => LastGiven(g, strict, image, es, n - 1, b)
  }

  lemma CurrentStep(g: Geometry, strict: bool, w: World, e: Event, b: int)
    requires Next(g, strict, w, e).Ok? && b in w.current && b in w.durable
    ensures var w' := Next(g, strict, w, e).w;
      && b in w'.current && b in w'.durable
      && w'.current[b] == if e.Modify? && e.b == b then e.data else if e.Crash? then w.durable[b] else w.current[b]
  {
    hide Script, Apply, Recovered, Pending, DiskOk, Absorb, Allowed;
  }

  /** The current blocks of every run are what its log_writes gave them. */
  lemma {:induction false} CurrentIs(g: Geometry, strict: bool, image: Disk, es: seq<Event>, n: nat, b: int)
    requires DiskOk(g, image) && g.IsHome(b) && n <= |es| && Run(g, strict, image, es[..n]).Ok?
    ensures var w := Run(g, strict, image, es[..n]).w;
      b in w.durable && b in w.current && w.current[b] == LastGiven(g, strict, image, es, n, b)
  {
    hide Next, DiskOk, Recovered;
    if n == 0 {
      BootHas(g, image, b);
    } else {
      assert es[..n][..n - 1] == es[..n - 1];
      CurrentIs(g, strict, image, es, n - 1, b);
      CurrentStep(g, strict, Run(g, strict, image, es[..n - 1]).w, es[n - 1], b);
    }
  }

  lemma BootHas(g: Geometry, image: Disk, b: int)
    requires DiskOk(g, image) && g.IsHome(b)
    ensures b in Recovered(g, image)
  {
  }

  lemma ApplyOne(d: Disk, x: Write)
    ensures Apply(d, [x]) == if 0 <= x.blockno < |d| then d[x.blockno := x.data] else d
  {
    assert [x][..0] == [];
  }

  /** A step writes at most one block, and only a disk write does; a crash can come at any
      moment and loses everything but the disk. */
  lemma OneWrite(g: Geometry, strict: bool, w: World, e: Event)
    requires Inv(g, w)
    ensures Next(g, strict, w, Crash).Ok?
    ensures Next(g, strict, w, e).Ok? ==>
      var d, s' := w.s.disk, Next(g, strict, w, e).w.s;
      && (exists b, data: Block {:trigger d[b := data]} :: 0 <= b < |d| && s'.disk == d[b := data])
      && (!e.DiskWrite? ==> s'.disk == d)
      && (e.Crash? ==> s'.ops == [] && s'.pinned == map[] && s'.phase == Recovering(d, 0))
  {
    hide Recovered, Script, RunningInv, CommittingInv, RecoveringInv, GoodList, Absorb;
    var d := w.s.disk;
    assert d[g.start := d[g.start]] == d;
    if e.DiskWrite? && Next(g, strict, w, e).Ok? {
      var x := Script(g, w.s)[w.s.phase.done];
      var d' := Next(g, strict, w, e).w.s.disk;
      ApplyOne(d, x);
      assert d' == if 0 <= x.blockno < |d| then d[x.blockno := x.data] else d;
    }
  }

  /** How much of ending the operations and of the commit or recovery is left. */
  function Left(g: Geometry, s: State): int {
    if s.phase.Running? then |s.ops| else |Script(g, s)| + 1 - s.phase.done
  }

  lemma SettleStep(g: Geometry, strict: bool, w: World) returns (e: Event)
    requires Inv(g, w) && (!w.s.phase.Running? || w.s.ops != [])
    ensures e.End? || e.DiskWrite? || e.Finish?
    ensures var o := Next(g, strict, w, e);
      && o.Ok? && o.w.current == w.current
      && (w.s.phase.Running? ==> |o.w.s.ops| == |w.s.ops| - 1)
      && (!w.s.phase.Running? ==> o.w.s.ops == [] && Left(g, w.s) > 0 && 0 <= Left(g, o.w.s) < Left(g, w.s))
  {
    hide Recovered, Overlay, Reserved, Apply, CommitScript, RecoverScript;
    var s := w.s;
    if s.phase.Running? {
      e := End(0);
    } else if s.phase.done < |Script(g, s)| {
      e := DiskWrite;
    } else {
      e := Finish;
    }
  }

  /** Nothing is lost but by a crash: every run can be brought to rest by ending its
      operations and letting the commit or recovery go on, and then everything the file
      system had written is durable. */
  lemma {:induction false} Settles(g: Geometry, strict: bool, image: Disk, es: seq<Event>) returns (more: seq<Event>)
    requires DiskOk(g, image) && Run(g, strict, image, es).Ok?
    ensures forall i :: 0 <= i < |more| ==> more[i].End? || more[i].DiskWrite? || more[i].Finish?
    ensures var o := Run(g, strict, image, es + more);
      && o.Ok? && o.w.s.phase.Running? && o.w.s.ops == [] && o.w.s.lh == []
      && o.w.durable == o.w.current == Run(g, strict, image, es).w.current
    decreases var s := Run(g, strict, image, es).w.s; (if s.phase.Running? then |s.ops| else 0),
      (var s := Run(g, strict, image, es).w.s; if s.phase.Running? then 0 else Left(g, s))
  {
    hide Next, Inv, Left;
    var w := Run(g, strict, image, es).w;
    RunInv(g, strict, image, es);
    InvFaithful(g, w);
    if w.s.phase.Running? && w.s.ops == [] {
      more := [];
      assert es + more == es;
    } else {
      var e := SettleStep(g, strict, w);
      RunAppend(g, strict, image, es, e);
      more := Settles(g, strict, image, es + [e]);
      assert es + [e] + more == es + ([e] + more);
      more := [e] + more;
    }
  }

  /** The write of the header that lists the logged blocks: the one after the last log
      block. */
  predicate HeaderWrite(w: World, e: Event) {
    e.DiskWrite? && w.s.phase.Committing? && w.s.phase.done == |w.s.lh|
  }

  /** Atomicity: in every run, the header write of a commit, made with no operation
      active, moves the durable blocks to the current ones all at once, and no other step
      changes them. */
  lemma Atomicity(g: Geometry, strict: bool, image: Disk, es: seq<Event>, e: Event)
    requires DiskOk(g, image) && Run(g, strict, image, es).Ok? && Run(g, strict, image, es + [e]).Ok?
    ensures var w, w' := Run(g, strict, image, es).w, Run(g, strict, image, es + [e]).w;
      && DiskOk(g, w.s.disk) && DiskOk(g, w'.s.disk) && Recovered(g, w.s.disk) == w.durable
      && (HeaderWrite(w, e) ==> w.s.ops == [])
      && Recovered(g, w'.s.disk) == if HeaderWrite(w, e) then w.current else w.durable
  {
    hide Inv, Next, HeaderWrite;
    RunAppend(g, strict, image, es, e);
    RunInv(g, strict, image, es);
    RunInv(g, strict, image, es + [e]);
    DurableStep(g, strict, Run(g, strict, image, es).w, e);
  }

  lemma DurableStep(g: Geometry, strict: bool, w: World, e: Event)
    requires Inv(g, w) && Next(g, strict, w, e).Ok? && Inv(g, Next(g, strict, w, e).w)
    ensures var w' := Next(g, strict, w, e).w;
      && DiskOk(g, w.s.disk) && DiskOk(g, w'.s.disk)
      && Recovered(g, w.s.disk) == w.durable && Recovered(g, w'.s.disk) == w'.durable
      && (HeaderWrite(w, e) ==> w.s.ops == [])
      && w'.durable == if HeaderWrite(w, e) then w.current else w.durable
  {
    hide RunningInv, RecoveringInv, Recovered, Script, Overlay;
  }

  lemma NoPanicStep(g: Geometry, w: World, e: Event)
    requires Inv(g, w) && g.size > LOGSIZE
    ensures Next(g, true, w, e) != Panic
  {
    if w.s.phase.Running? {
      SlackBounds(w.s.ops);
    }
  }

  /** With the strict promise and a log area larger than LOGSIZE, log_write never
      panics in any run. */
  lemma {:induction false} NoPanic(g: Geometry, image: Disk, es: seq<Event>)
    requires DiskOk(g, image) && g.size > LOGSIZE
    ensures Run(g, true, image, es) != Panic
    decreases |es|
  {
    hide Inv, Next;
    if es == [] {
    } else {
      NoPanic(g, image, es[..|es| - 1]);
      var o := Run(g, true, image, es[..|es| - 1]);
      if o.Ok? {
        RunInv(g, true, image, es[..|es| - 1]);
        NoPanicStep(g, o.w, es[|es| - 1]);
      }
    }
  }

  /** Event n, if it logs a block for an operation, finds fewer than MAXOPBLOCKS blocks
      logged by it. */
  predicate Budgeted(g: Geometry, image: Disk, es: seq<Event>, n: nat)
    requires DiskOk(g, image) && n < |es|
  {
    var o := Run(g, false, image, es[..n]);
    o.Ok? && es[n].Modify? && es[n].op < |o.w.s.ops| ==> |o.w.s.ops[es[n].op]| < MAXOPBLOCKS
  }

  lemma SameStep(g: Geometry, w: World, e: Event)
    requires e.Modify? && e.op < |w.s.ops| ==> |w.s.ops[e.op]| < MAXOPBLOCKS
    ensures Next(g, true, w, e) == Next(g, false, w, e)
  {
    hide Script, Apply, Recovered, Pending, DiskOk, Absorb;
    if e.Modify? && e.op < |w.s.ops| {
      GrowOp(w.s.ops[e.op], e.b, true);
    }
  }

  /** Operations that stay below MAXOPBLOCKS before every log_write, as each chunk of
      filewrite does, never make it panic, however they interleave. */
  lemma {:induction false} BudgetedRun(g: Geometry, image: Disk, es: seq<Event>)
    requires DiskOk(g, image) && forall n :: 0 <= n < |es| ==> Budgeted(g, image, es, n)
    ensures Run(g, true, image, es) == Run(g, false, image, es)
    ensures g.size > LOGSIZE ==> Run(g, false, image, es) != Panic
    decreases |es|
  {
    hide Next, DiskOk;
    if g.size > LOGSIZE {
      NoPanic(g, image, es);
    }
    if es == [] {
    } else {
      var last := |es| - 1;
      forall n | 0 <= n < last ensures Budgeted(g, image, es[..last], n) {
        assert es[..last][..n] == es[..n] && Budgeted(g, image, es, n);
      }
      BudgetedRun(g, image, es[..last]);
      var o := Run(g, false, image, es[..last]);
      assert Budgeted(g, image, es, last);
      if o.Ok? {
        SameStep(g, o.w, es[last]);
      }
    }
  }

  /** The log_write calls of each active operation, after the first n events. */
  function Calls(g: Geometry, image: Disk, es: seq<Event>, n: nat): seq<seq<int>>
    requires DiskOk(g, image) && n <= |es|
  {
    if n == 0 then []
    else
      var o := Run(g, false, image, es[..n - 1]);
      if o.Ok? then NextCalls(Calls(g, image, es, n - 1), es[n - 1], Next(g, false, o.w, es[n - 1])) else []
  }

  function NextCalls(h: seq<seq<int>>, e: Event, o: Outcome): seq<seq<int>> {
    if !o.Ok? then h
    else
      match e
      case Begin => h + [[]]
      case Modify(op, b, _) => if op < |h| then h[op := h[op] + [b]] else h
      case End(op) => if op < |h| then Without(h, op) else h
      case Crash => []
      case _ => h
  }

  predicate Recorded(h: seq<seq<int>>, ops: seq<set<int>>) {
    |h| == |ops| && forall k :: 0 <= k < |h| ==> ops[k] == Elems(h[k])
  }

  lemma NextOps(g: Geometry, w: World, e: Event)
    requires Next(g, false, w, e).Ok?
    ensures var ops, ops' := w.s.ops, Next(g, false, w, e).w.s.ops;
      match e
      case Begin => ops' == ops + [{}]
      case Modify(op, b, _) => op < |ops| && ops' == ops[op := ops[op] + {b}]
      case End(op) => op < |ops| && ops' == Without(ops, op)
      case Crash => ops' == []
      case _ => ops' == ops
  {
    hide Script, Apply, Recovered, Pending, DiskOk, Absorb, Allowed;
  }

  lemma RecordedStep(g: Geometry, w: World, h: seq<seq<int>>, e: Event)
    requires Recorded(h, w.s.ops) && Next(g, false, w, e).Ok?
    ensures Recorded(NextCalls(h, e, Next(g, false, w, e)), Next(g, false, w, e).w.s.ops)
  {
    hide Next, Elems, Peak;
    NextOps(g, w, e);
    if e.Modify? {
      ElemsAdd(h[e.op], e.b);
    } else if e.Begin? {
      NoElems();
    }
  }

  lemma NoElems()
    ensures Elems([]) == {}
  {
  }

  lemma {:induction false} CallsRecorded(g: Geometry, image: Disk, es: seq<Event>, n: nat)
    requires DiskOk(g, image) && n <= |es| && Run(g, false, image, es[..n]).Ok?
    ensures Recorded(Calls(g, image, es, n), Run(g, false, image, es[..n]).w.s.ops)
  {
    hide Next, NextCalls, Recorded, DiskOk;
    if n == 0 {
      NothingRecorded(g, image, es);
    } else {
      assert es[..n][..n - 1] == es[..n - 1];
      CallsRecorded(g, image, es, n - 1);
      RecordedStep(g, Run(g, false, image, es[..n - 1]).w, Calls(g, image, es, n - 1), es[n - 1]);
    }
  }

  lemma NothingRecorded(g: Geometry, image: Disk, es: seq<Event>)
    requires DiskOk(g, image)
    ensures Run(g, false, image, es[..0]).Ok? && Recorded([], Run(g, false, image, es[..0]).w.s.ops)
  {
  }

  /** Event n, if it is a log_write, is the next call of one of these lists of calls for
      the operation that makes it. */
  ghost predicate Follows(g: Geometry, image: Disk, es: seq<Event>, n: nat, lists: set<seq<int>>)
    requires DiskOk(g, image) && n < |es|
  {
    var h := Calls(g, image, es, n);
    es[n].Modify? && es[n].op < |h| ==> exists c :: c in lists && h[es[n].op] + [es[n].b] <= c
  }

  lemma FollowsBudgeted(g: Geometry, image: Disk, es: seq<Event>, n: nat, lists: set<seq<int>>)
    requires DiskOk(g, image) && n < |es| && Follows(g, image, es, n, lists)
    requires forall c :: c in lists ==> Peak(c) < MAXOPBLOCKS
    ensures Budgeted(g, image, es, n)
  {
    hide Next, Calls, DiskOk, Peak, Elems, Run;
    var h, o := Calls(g, image, es, n), Run(g, false, image, es[..n]);
    if o.Ok? && es[n].Modify? && es[n].op < |o.w.s.ops| {
      CallsRecorded(g, image, es, n);
      var mine := h[es[n].op];
      var c :| c in lists && mine + [es[n].b] <= c;
      assert c[..|mine|] == mine;
      PeakAt(c, |mine|);
    }
  }

  /** Operations whose log_writes follow lists of calls, each list with fewer than
      MAXOPBLOCKS blocks before every call, never make log_write panic, however they
      interleave with each other, with commits and with crashes. */
  lemma InterleavedLists(g: Geometry, image: Disk, es: seq<Event>, lists: set<seq<int>>)
    requires DiskOk(g, image) && g.size > LOGSIZE
    requires forall c :: c in lists ==> Peak(c) < MAXOPBLOCKS
    requires forall n :: 0 <= n < |es| ==> Follows(g, image, es, n, lists)
    ensures Run(g, false, image, es) != Panic
  {
    hide Run, DiskOk, Follows, Budgeted;
    forall n | 0 <= n < |es| ensures Budgeted(g, image, es, n) {
      FollowsBudgeted(g, image, es, n, lists);
    }
    BudgetedRun(g, image, es);
  }

  // ---------------------------------------------------------------- when an operation is let in

  function Union(sets: seq<set<int>>): set<int> {
    set i, x | 0 <= i < |sets| && x in sets[i] :: x
  }

  lemma UnionAdd(sets: seq<set<int>>, last: set<int>)
    ensures Union(sets + [last]) == Union(sets) + last
  {
    var all := sets + [last];
    forall x | x in Union(sets) + last ensures x in Union(all) {
      if x in last {
        assert x in all[|sets|];
      } else {
        var i :| 0 <= i < |sets| && x in sets[i];
        assert x in all[i];
      }
    }
  }

  lemma {:induction false} UnionSize(sets: seq<set<int>>)
    requires forall i :: 0 <= i < |sets| ==> |sets[i]| <= MAXOPBLOCKS
    ensures |Union(sets)| <= |sets| * MAXOPBLOCKS
  {
    if sets == [] {
      assert Union(sets) == {};
    } else {
      var n := |sets| - 1;
      UnionSize(sets[..n]);
      UnionAdd(sets[..n], sets[n]);
      assert sets[..n] + [sets[n]] == sets;
    }
  }

  lemma {:induction false} ElemsSize(s: seq<int>)
    requires Distinct(s)
    ensures |Elems(s)| == |s|
  {
    hide Elems, Peak;
    if s == [] {
      NoElems();
    } else {
      var n := |s| - 1;
      ElemsSize(s[..n]);
      ElemsAdd(s[..n], s[n]);
      LastNew(s);
      assert s[..n] + [s[n]] == s;
    }
  }

  lemma LastNew(s: seq<int>)
    requires Distinct(s) && s != []
    ensures s[|s| - 1] !in Elems(s[..|s| - 1])
  {
  }

  function Interval(a: int, n: nat): (r: set<int>)
    ensures |r| == n && forall x :: x in r <==> a <= x < a + n
  {
    if n == 0 then {} else Interval(a, n - 1) + {a + n - 1}
  }

  /** n sets of MAXOPBLOCKS numbers each, all different and from h on. */
  lemma {:induction false} FullSets(h: int, n: nat) returns (sets: seq<set<int>>)
    ensures Within(sets, n) && |Union(sets)| == n * MAXOPBLOCKS
    ensures forall x :: x in Union(sets) ==> h <= x < h + n * MAXOPBLOCKS
  {
    hide Union;
    if n == 0 {
      sets := [];
      NoUnion();
    } else {
      var front := FullSets(h, n - 1);
      var a := h + (n - 1) * MAXOPBLOCKS;
      var last := Interval(a, MAXOPBLOCKS);
      UnionAdd(front, last);
      assert Union(front) !! last;
      sets := front + [last];
    }
  }

  lemma NoUnion()
    ensures Union([]) == {}
  {
  }

  /** n sets of at most MAXOPBLOCKS blocks each. */
  predicate Within(sets: seq<set<int>>, n: nat) {
    |sets| == n && forall i :: 0 <= i < n ==> |sets[i]| <= MAXOPBLOCKS
  }

  /** Any operations with at most MAXOPBLOCKS blocks each leave the log within LOGSIZE. */
  ghost predicate AlwaysFit(lh: seq<int>, n: nat) {
    forall sets: seq<set<int>> :: Within(sets, n) ==> |Elems(lh) + Union(sets)| <= LOGSIZE
  }

  lemma {:induction false} Above(s: seq<int>) returns (h: int)
    ensures forall i :: 0 <= i < |s| ==> s[i] < h
  {
    if s == [] {
      h := 0;
    } else {
      h := Above(s[..|s| - 1]);
      h := if s[|s| - 1] < h then h else s[|s| - 1] + 1;
    }
  }

  /** begin_op lets an operation in exactly when the log holds whatever it and the
      operations already active may log. */
  lemma AdmittedIff(lh: seq<int>, outstanding: nat)
    requires Distinct(lh)
    ensures !LogMayFill(lh, outstanding) <==> AlwaysFit(lh, outstanding + 1)
  {
    ElemsSize(lh);
    if !LogMayFill(lh, outstanding) {
      forall sets: seq<set<int>> | Within(sets, outstanding + 1)
        ensures |Elems(lh) + Union(sets)| <= LOGSIZE
      {
        UnionSize(sets);
      }
    } else {
      var h := Above(lh);
      var sets := FullSets(h, outstanding + 1);
      assert forall x :: x in Elems(lh) ==> x < h;
      assert Elems(lh) !! Union(sets);
    }
  }

  /** While no commit or recovery is under way, an operation begins exactly when the log
      holds whatever may be logged, and an active one can always log another block within
      its promise, and end. */
  lemma Responds(g: Geometry, w: World, op: nat, b: int, data: Block)
    requires Inv(g, w) && w.s.phase.Running? && g.size > LOGSIZE
    ensures Next(g, true, w, Begin).Ok? <==> AlwaysFit(w.s.lh, |w.s.ops| + 1)
    ensures op < |w.s.ops| && g.IsHome(b) && |w.s.ops[op]| < MAXOPBLOCKS ==> Next(g, true, w, Modify(op, b, data)).Ok?
    ensures op < |w.s.ops| ==> Next(g, true, w, End(op)).Ok?
  {
    hide AlwaysFit, Recovered, Overlay, Pending, Absorb;
    AdmittedIff(w.s.lh, |w.s.ops|);
    SlackBounds(w.s.ops);
  }

  // ---------------------------------------------------------------- when log_write can panic

  /** One more event of a run. */
  lemma RunAppend(g: Geometry, strict: bool, image: Disk, es: seq<Event>, e: Event)
    requires DiskOk(g, image) && Run(g, strict, image, es).Ok?
    ensures Run(g, strict, image, es + [e]) == Next(g, strict, Run(g, strict, image, es).w, e)
  {
    assert (es + [e])[..|es|] == es;
  }

  /** Boot recovery can always be run to its end. */
  lemma {:induction false} BootRun(g: Geometry, strict: bool, image: Disk, k: nat) returns (es: seq<Event>)
    requires DiskOk(g, image) && k <= |RecoverScript(g, image)|
    ensures Run(g, strict, image, es).Ok?
    ensures var s := Run(g, strict, image, es).w.s; s.phase == Recovering(image, k) && s.ops == []
    decreases k
  {
    if k == 0 {
      es := [];
    } else {
      es := BootRun(g, strict, image, k - 1);
      RunAppend(g, strict, image, es, DiskWrite);
      es := es + [DiskWrite];
    }
  }

  /** Three operations, ready to log, over an empty log. */
  lemma ThreeOps(g: Geometry, strict: bool, image: Disk) returns (es: seq<Event>)
    requires DiskOk(g, image)
    ensures Run(g, strict, image, es).Ok?
    ensures var s := Run(g, strict, image, es).w.s; s.phase == Running && s.lh == [] && s.ops == [{}, {}, {}]
  {
    es := BootRun(g, strict, image, |RecoverScript(g, image)|);
    RunAppend(g, strict, image, es, Finish);
    es := es + [Finish];
    RunAppend(g, strict, image, es, Begin);
    es := es + [Begin];
    RunAppend(g, strict, image, es, Begin);
    es := es + [Begin];
    RunAppend(g, strict, image, es, Begin);
    es := es + [Begin];
  }

  function Upto(h: int, k: nat): (r: seq<int>)
    ensures |r| == k && forall i :: 0 <= i < k ==> r[i] == h + i
  {
    seq(k, i => h + i)
  }

  /** How many blocks operation `op` has logged once k blocks are logged in all,
      each operation using its full allowance before the next one starts. */
  function Share(k: nat, op: nat): (n: nat)
    ensures n <= MAXOPBLOCKS
  {
    if k <= 10 * op then 0 else if k <= 10 * op + 10 then k - 10 * op else 10
  }

  /** LOGSIZE home blocks in a row, from block h. */
  predicate HomeRange(g: Geometry, h: int) {
    0 <= h && h + LOGSIZE <= g.nblocks && (h + LOGSIZE <= g.start || g.start + g.size <= h)
  }

  /** Three operations have logged blocks h, h+1, ... up to k of them. */
  predicate Filled(w: World, h: int, k: nat) {
    var s := w.s;
    && s.phase == Running && s.lh == Upto(h, k) && |s.ops| == 3
    && (forall op :: 0 <= op < 3 ==> |s.ops[op]| == Share(k, op))
    && (forall op, x :: 0 <= op < 3 && x in s.ops[op] ==> x < h + k)
    && (k == LOGSIZE ==> h + LOGSIZE - 1 in s.ops[2])
  }

  lemma FilledNone(w: World, h: int)
    requires w.s.phase == Running && w.s.lh == [] && w.s.ops == [{}, {}, {}]
    ensures Filled(w, h, 0)
  {
  }

  lemma FillStep(g: Geometry, strict: bool, w: World, h: int, k: nat, data: Block)
    requires Filled(w, h, k) && HomeRange(g, h) && k < LOGSIZE && k < g.size - 1
    ensures var o := Next(g, strict, w, Modify(k / 10, h + k, data)); o.Ok? && Filled(o.w, h, k + 1)
  {
    var op, b := k / 10, h + k;
    var mine := w.s.ops[op];
    assert b !in w.s.lh;
    assert b !in mine;
    assert |mine + {b}| == |mine| + 1;
    assert Upto(h, k) + [b] == Upto(h, k + 1);
  }

  /** Three operations can fill the log up to any size log_write accepts. */
  lemma {:induction false} FillRun(g: Geometry, strict: bool, image: Disk, h: int, k: nat) returns (es: seq<Event>)
    requires DiskOk(g, image) && k <= LOGSIZE && k <= g.size - 1 && HomeRange(g, h)
    ensures Run(g, strict, image, es).Ok? && Filled(Run(g, strict, image, es).w, h, k)
    decreases k
  {
    hide Next, Filled, Run, DiskOk;
    if k == 0 {
      es := ThreeOps(g, strict, image);
      FilledNone(Run(g, strict, image, es).w, h);
    } else {
      es := FillRun(g, strict, image, h, k - 1);
      var data := seq(BLOCK_WORDS, _ => 0);
      FillStep(g, strict, Run(g, strict, image, es).w, h, k - 1, data);
      var e := Modify((k - 1) / 10, h + (k - 1), data);
      RunAppend(g, strict, image, es, e);
      es := es + [e];
    }
  }

  /** A log that is as full as it may get panics at a call the promise allows. */
  lemma FullPanics(g: Geometry, strict: bool, w: World, h: int, k: nat, data: Block) returns (e: Event)
    requires g.Valid() && Filled(w, h, k) && HomeRange(g, h) && !(strict && g.size > LOGSIZE)
    requires k == if g.size > LOGSIZE then LOGSIZE else g.size - 1
    ensures Next(g, strict, w, e) == Panic
  {
    if k == LOGSIZE {
      var mine := w.s.ops[2];
      assert mine + {h + LOGSIZE - 1} == mine;
      e := Modify(2, h + LOGSIZE - 1, data);
    } else {
      var mine := w.s.ops[k / 10];
      assert |mine + {h + k}| == |mine| + 1;
      e := Modify(k / 10, h + k, data);
    }
  }

  /** The exact condition: log_write never panics, whatever the interleaving, if and
      only if every operation has logged fewer than MAXOPBLOCKS distinct blocks before
      each call and the log area holds more than LOGSIZE blocks. */
  lemma NoPanicIff(g: Geometry, strict: bool, image: Disk, h: int)
    requires DiskOk(g, image)
    requires HomeRange(g, h)
    ensures (forall es :: Run(g, strict, image, es) != Panic) <==> strict && g.size > LOGSIZE
  {
    if strict && g.size > LOGSIZE {
      forall es
        ensures Run(g, strict, image, es) != Panic
      {
        NoPanic(g, image, es);
      }
    } else {
      var k := if g.size > LOGSIZE then LOGSIZE else g.size - 1;
      var es := FillRun(g, strict, image, h, k);
      var e := FullPanics(g, strict, Run(g, strict, image, es).w, h, k, seq(BLOCK_WORDS, _ => 0));
      RunAppend(g, strict, image, es, e);
      assert Run(g, strict, image, es + [e]) == Panic;
    }
  }
}
