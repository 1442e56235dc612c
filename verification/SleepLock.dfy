/** sleeplock.c over the sleep and wakeup of proc.c: an interleaving machine in which each
    step is one access to shared state. A spinlock is its holder; a process that is not
    scheduled is one that takes no step. */
module SleepLock {
  /** Where a process is in acquiresleep, sleep, releasesleep, wakeup or holdingsleep.
      `mine` in the last three says whether the caller holds the sleeplock. */
  datatype Pc =
    | Idle
    | AcqWant | AcqTest | AcqTake | AcqPid | AcqRelease
    | SleepWant | SleepRelease | SleepChan | SleepState | SleepSwitch
    | Asleep | WakeTidy | WakeRelease | WakeWant
    | Holding
    | RelWant | RelClear | RelPid | WakeupWant | WakeupScan(k: int) | WakeupDone | RelRelease
    | AskWant(mine: bool) | AskRead(mine: bool) | AskRelease(mine: bool, r: bool)

  datatype ProcState = RUNNING | SLEEPING | RUNNABLE

  datatype Proc = Proc(pc: Pc, st: ProcState, chan: bool)

  /** Holders are process numbers; FREE and SCHED (a CPU's scheduler) are not. */
  const FREE := -1
  const SCHED := -2

  /** The sleeplock (locked, pid, and its spinlock lk), ptable.lock, and two notes for
      the proof: who owns the sleeplock, and from which slot on a wakeup is still due
      (-1: none is). */
  datatype Shared = Shared(lk: int, pt: int, locked: bool, pid: int, owner: int, due: int)

  datatype State = State(g: Shared, procs: seq<Proc>)

  datatype Event =
    | Step(p: nat)
    | Call(p: nat, what: Pc)
    | SchedAcquire | SchedDispatch(p: nat) | SchedRelease
    | Kill(p: nat)

  function PidOf(p: int): int {
    p + 1
  }

  // ---------------------------------------------------------------- steps

  /** One step of process p, which is running; a spinning acquire changes nothing. */
  function Advance(s: State, p: nat): State
    requires p < |s.procs|
  {
    var pc := s.procs[p].pc;
    if Acquiring(pc) then AcquireStep(s, p)
    else if Sleeping(pc) then SleepStep(s, p)
    else if Waking(pc) then WakeStep(s, p)
    else if Releasing(pc) then ReleaseStep(s, p)
    else AskStep(s, p)
  }

  predicate Acquiring(pc: Pc) {
    pc.AcqWant? || pc.AcqTest? || pc.AcqTake? || pc.AcqPid? || pc.AcqRelease?
  }

  predicate Sleeping(pc: Pc) {
    pc.SleepWant? || pc.SleepRelease? || pc.SleepChan? || pc.SleepState? || pc.SleepSwitch?
  }

  predicate Waking(pc: Pc) {
    pc.WakeTidy? || pc.WakeRelease? || pc.WakeWant?
  }

  predicate Releasing(pc: Pc) {
    || pc.RelWant? || pc.RelClear? || pc.RelPid? || pc.WakeupWant? || pc.WakeupScan? || pc.WakeupDone? || pc.RelRelease?
  }

  /** acquiresleep. */
  function AcquireStep(s: State, p: nat): State
    requires p < |s.procs|
  {
    var g, x := s.g, s.procs[p];
    match x.pc
    case AcqWant => if g.lk == FREE then Put(s, p, g.(lk := p), x.(pc := AcqTest)) else s
    case AcqTest => Put(s, p, g, x.(pc := if g.locked then SleepWant else AcqTake))
    case AcqTake => Put(s, p, g.(locked := true, owner := p), x.(pc := AcqPid))
    case AcqPid => Put(s, p, g.(pid := PidOf(p)), x.(pc := AcqRelease))
    case AcqRelease => Put(s, p, g.(lk := FREE), x.(pc := Holding))
    case _ => s
  }

  /** sleep, called with the spinlock held, up to sched, which hands ptable.lock to the
      scheduler. */
  function SleepStep(s: State, p: nat): State
    requires p < |s.procs|
  {
    var g, x := s.g, s.procs[p];
    match x.pc
    case SleepWant => if g.pt == FREE then Put(s, p, g.(pt := p), x.(pc := SleepRelease)) else s
    case SleepRelease => Put(s, p, g.(lk := FREE), x.(pc := SleepChan))
    case SleepChan => Put(s, p, g, x.(chan := true, pc := SleepState))
    case SleepState => Put(s, p, g, x.(st := SLEEPING, pc := SleepSwitch))
    case SleepSwitch => Put(s, p, g.(pt := SCHED), x.(pc := Asleep))
    case _ => s
  }

  /** The rest of sleep, once the scheduler has switched back to the process. */
  function WakeStep(s: State, p: nat): State
    requires p < |s.procs|
  {
    var g, x := s.g, s.procs[p];
    match x.pc
    case WakeTidy => Put(s, p, g, x.(chan := false, pc := WakeRelease))
    case WakeRelease => Put(s, p, g.(pt := FREE), x.(pc := WakeWant))
    case WakeWant => if g.lk == FREE then Put(s, p, g.(lk := p), x.(pc := AcqTest)) else s
    case _ => s
  }

  /** releasesleep, with wakeup. */
  function ReleaseStep(s: State, p: nat): State
    requires p < |s.procs|
  {
    var g, x := s.g, s.procs[p];
    match x.pc
    case RelWant => if g.lk == FREE then Put(s, p, g.(lk := p), x.(pc := RelClear)) else s
    case RelClear => Put(s, p, g.(locked := false, owner := FREE, due := 0), x.(pc := RelPid))
    case RelPid => Put(s, p, g.(pid := 0), x.(pc := WakeupWant))
    case WakeupWant => if g.pt == FREE then Put(s, p, g.(pt := p), x.(pc := WakeupScan(0))) else s
    case WakeupScan(k) =>
      if 0 <= k < |s.procs| then Put(Scan(s, k), p, g.(due := k + 1), Scan(s, k).procs[p].(pc := WakeupScan(k + 1)))
      else Put(s, p, g.(due := -1), x.(pc := WakeupDone))
    case WakeupDone => Put(s, p, g.(pt := FREE), x.(pc := RelRelease))
    case RelRelease => Put(s, p, g.(lk := FREE), x.(pc := Idle))
    case _ => s
  }

  /** holdingsleep. */
  function AskStep(s: State, p: nat): State
    requires p < |s.procs|
  {
    var g, x := s.g, s.procs[p];
    match x.pc
    case AskWant(m) => if g.lk == FREE then Put(s, p, g.(lk := p), x.(pc := AskRead(m))) else s
    case AskRead(m) => Put(s, p, g, x.(pc := AskRelease(m, g.locked && g.pid == PidOf(p))))
    case AskRelease(m, _) => Put(s, p, g.(lk := FREE), x.(pc := if m then Holding else Idle))
    case _ => s
  }

  function Put(s: State, p: nat, g: Shared, x: Proc): State
    requires p < |s.procs|
  {
    State(g, s.procs[p := x])
  }

  /** One turn of wakeup1's loop. */
  function Scan(s: State, k: nat): State
    requires k < |s.procs|
  {
    var y := s.procs[k];
    if y.st == SLEEPING && y.chan then Put(s, k, s.g, y.(st := RUNNABLE)) else s
  }

  /** What a process may call from outside: the lock, or while holding it. */
  predicate MayCall(pc: Pc, what: Pc) {
    || (pc == Idle && (what == AcqWant || what == AskWant(false)))
    || (pc == Holding && (what == RelWant || what == AskWant(true)))
  }

  function Next(s: State, e: Event): State {
    match e
    case Step(p) => if Active(s, p) then Advance(s, p) else s
    case Call(p, what) =>
      if p < |s.procs| && MayCall(s.procs[p].pc, what) then Put(s, p, s.g, s.procs[p].(pc := what)) else s
    case SchedAcquire => if s.g.pt == FREE then s.(g := s.g.(pt := SCHED)) else s
    case SchedRelease => if s.g.pt == SCHED then s.(g := s.g.(pt := FREE)) else s
    case SchedDispatch(p) =>
      if p < |s.procs| && s.g.pt == SCHED && s.procs[p].st == RUNNABLE && s.procs[p].pc == Asleep
      then Put(s, p, s.g.(pt := p), s.procs[p].(st := RUNNING, pc := WakeTidy)) else s
    case Kill(p) =>
      if p < |s.procs| && s.g.pt == FREE && s.procs[p].st == SLEEPING
      then Put(s, p, s.g, s.procs[p].(st := RUNNABLE)) else s
  }

  function Run(s: State, es: seq<Event>): State
    decreases |es|
  {
    if es == [] then s else Run(Next(s, es[0]), es[1..])
  }

  function Init(n: nat): State {
    State(Shared(FREE, FREE, false, 0, FREE, -1), seq(n, _ => Proc(Idle, RUNNING, false)))
  }

  // ---------------------------------------------------------------- the invariant

  /** The process holds the spinlock. */
  predicate HasLk(pc: Pc) {
    || pc.AcqTest? || pc.AcqTake? || pc.AcqPid? || pc.AcqRelease? || pc.SleepWant? || pc.SleepRelease?
    || pc.RelClear? || pc.RelPid? || pc.WakeupWant? || pc.WakeupScan? || pc.WakeupDone? || pc.RelRelease?
    || pc.AskRead? || pc.AskRelease?
  }

  /** The process holds ptable.lock. */
  predicate HasPt(pc: Pc) {
    || pc.SleepRelease? || pc.SleepChan? || pc.SleepState? || pc.SleepSwitch? || pc.WakeTidy? || pc.WakeRelease?
    || pc.WakeupScan? || pc.WakeupDone?
  }

  /** The process holds the sleeplock. */
  predicate Owns(pc: Pc) {
    || pc.AcqPid? || pc.AcqRelease? || pc.Holding? || pc.RelWant? || pc.RelClear?
    || (pc.AskWant? && pc.mine) || (pc.AskRead? && pc.mine) || (pc.AskRelease? && pc.mine)
  }

  /** The process has seen locked set and is going to sleep, or sleeps, on the lock. */
  predicate Committed(x: Proc) {
    || x.pc.SleepWant? || x.pc.SleepRelease? || x.pc.SleepChan? || x.pc.SleepState?
    || ((x.pc.SleepSwitch? || x.pc.Asleep?) && x.st == SLEEPING)
  }

  /** What holds of process i. */
  predicate ProcOk(g: Shared, n: int, i: int, x: Proc) {
    && HasLk(x.pc) == (g.lk == i)
    && HasPt(x.pc) == (g.pt == i)
    && Owns(x.pc) == (g.owner == i)
    && (Committed(x) ==> g.locked || 0 <= g.due <= i)
    && ((x.pc.SleepWant? || x.pc.SleepRelease?) ==> g.locked)
    && (x.pc.AcqTake? ==> !g.locked)
    && (x.pc.RelPid? || x.pc.WakeupWant? ==> g.due == 0)
    && (x.pc.WakeupScan? ==> g.due == x.pc.k && 0 <= x.pc.k <= n)
    && (HasLk(x.pc) && !x.pc.RelPid? && !x.pc.WakeupWant? && !x.pc.WakeupScan? ==> g.due == -1)
    && (x.pc.SleepState? || x.pc.SleepSwitch? || x.pc.Asleep? ==> x.chan)
    && (x.chan ==> x.pc.SleepState? || x.pc.SleepSwitch? || x.pc.Asleep? || x.pc.WakeTidy?)
    && (x.pc.Asleep? || x.pc.SleepSwitch? || x.st == RUNNING)
    && (x.pc.SleepSwitch? ==> x.st == SLEEPING)
    && (x.pc.Asleep? ==> x.st != RUNNING)
    && (Owns(x.pc) && !x.pc.AcqPid? ==> g.pid == PidOf(i))
    && (x.pc.AskRelease? ==> x.pc.r == x.pc.mine)
  }

  predicate SharedOk(g: Shared, n: int) {
    && FREE <= g.lk < n && SCHED <= g.pt < n && FREE <= g.owner < n
    && g.locked == (g.owner != FREE) && -1 <= g.due <= n && (g.due >= 0 ==> g.lk != FREE && !g.locked)
  }

  predicate Inv(s: State) {
    && SharedOk(s.g, |s.procs|)
    && forall i :: 0 <= i < |s.procs| ==> ProcOk(s.g, |s.procs|, i, s.procs[i])
  }

  lemma InitInv(n: nat)
    ensures Inv(Init(n))
  {
  }

  predicate Two(s: State, p: nat, i: nat) {
    && p < |s.procs| && i < |s.procs| && SharedOk(s.g, |s.procs|)
    && ProcOk(s.g, |s.procs|, p, s.procs[p]) && ProcOk(s.g, |s.procs|, i, s.procs[i])
  }

  predicate Active(s: State, p: nat) {
    p < |s.procs| && (s.procs[p].st == RUNNING || s.procs[p].pc == SleepSwitch)
  }

  lemma AcquireOther(s: State, p: nat, i: nat)
    requires Two(s, p, i) && Active(s, p) && p != i
    ensures |AcquireStep(s, p).procs| == |s.procs|
    ensures ProcOk(AcquireStep(s, p).g, |s.procs|, i, AcquireStep(s, p).procs[i])
  {
  }

  lemma AcquireSelf(s: State, p: nat)
    requires Two(s, p, p) && Active(s, p)
    ensures |AcquireStep(s, p).procs| == |s.procs| && SharedOk(AcquireStep(s, p).g, |s.procs|)
    ensures ProcOk(AcquireStep(s, p).g, |s.procs|, p, AcquireStep(s, p).procs[p])
  {
  }

  lemma SleepOther(s: State, p: nat, i: nat)
    requires Two(s, p, i) && Active(s, p) && p != i
    ensures |SleepStep(s, p).procs| == |s.procs|
    ensures ProcOk(SleepStep(s, p).g, |s.procs|, i, SleepStep(s, p).procs[i])
  {
  }

  lemma SleepSelf(s: State, p: nat)
    requires Two(s, p, p) && Active(s, p)
    ensures |SleepStep(s, p).procs| == |s.procs| && SharedOk(SleepStep(s, p).g, |s.procs|)
    ensures ProcOk(SleepStep(s, p).g, |s.procs|, p, SleepStep(s, p).procs[p])
  {
  }

  lemma WakeOther(s: State, p: nat, i: nat)
    requires Two(s, p, i) && Active(s, p) && p != i
    ensures |WakeStep(s, p).procs| == |s.procs|
    ensures ProcOk(WakeStep(s, p).g, |s.procs|, i, WakeStep(s, p).procs[i])
  {
  }

  lemma WakeSelf(s: State, p: nat)
    requires Two(s, p, p) && Active(s, p)
    ensures |WakeStep(s, p).procs| == |s.procs| && SharedOk(WakeStep(s, p).g, |s.procs|)
    ensures ProcOk(WakeStep(s, p).g, |s.procs|, p, WakeStep(s, p).procs[p])
  {
  }

  lemma ReleaseOther(s: State, p: nat, i: nat)
    requires Two(s, p, i) && Active(s, p) && p != i
    ensures |ReleaseStep(s, p).procs| == |s.procs|
    ensures ProcOk(ReleaseStep(s, p).g, |s.procs|, i, ReleaseStep(s, p).procs[i])
  {
  }

  lemma ReleaseSelf(s: State, p: nat)
    requires Two(s, p, p) && Active(s, p)
    ensures |ReleaseStep(s, p).procs| == |s.procs| && SharedOk(ReleaseStep(s, p).g, |s.procs|)
    ensures ProcOk(ReleaseStep(s, p).g, |s.procs|, p, ReleaseStep(s, p).procs[p])
  {
  }

  lemma AskOther(s: State, p: nat, i: nat)
    requires Two(s, p, i) && Active(s, p) && p != i
    ensures |AskStep(s, p).procs| == |s.procs|
    ensures ProcOk(AskStep(s, p).g, |s.procs|, i, AskStep(s, p).procs[i])
  {
  }

  lemma AskSelf(s: State, p: nat)
    requires Inv(s) && Active(s, p)
    ensures |AskStep(s, p).procs| == |s.procs| && SharedOk(AskStep(s, p).g, |s.procs|)
    ensures ProcOk(AskStep(s, p).g, |s.procs|, p, AskStep(s, p).procs[p])
  {
    assert ProcOk(s.g, |s.procs|, p, s.procs[p]);
    if s.procs[p].pc.AskRead? && s.g.owner != FREE {
      assert ProcOk(s.g, |s.procs|, s.g.owner, s.procs[s.g.owner]);
    }
  }

  lemma AdvanceSelf(s: State, p: nat)
    requires Inv(s) && Active(s, p)
    ensures |Advance(s, p).procs| == |s.procs| && SharedOk(Advance(s, p).g, |s.procs|)
    ensures ProcOk(Advance(s, p).g, |s.procs|, p, Advance(s, p).procs[p])
  {
    hide ProcOk, SharedOk, AcquireStep, SleepStep, WakeStep, ReleaseStep, AskStep;
    assert ProcOk(s.g, |s.procs|, p, s.procs[p]);
    AcquireSelf(s, p);
    SleepSelf(s, p);
    WakeSelf(s, p);
    ReleaseSelf(s, p);
    AskSelf(s, p);
  }

  lemma AdvanceOther(s: State, p: nat, i: nat)
    requires Two(s, p, i) && Active(s, p) && p != i
    ensures |Advance(s, p).procs| == |s.procs|
    ensures ProcOk(Advance(s, p).g, |s.procs|, i, Advance(s, p).procs[i])
  {
    hide ProcOk, SharedOk, AcquireStep, SleepStep, WakeStep, ReleaseStep, AskStep;
    AcquireOther(s, p, i);
    SleepOther(s, p, i);
    WakeOther(s, p, i);
    ReleaseOther(s, p, i);
    AskOther(s, p, i);
  }

  lemma AdvanceInv(s: State, p: nat)
    requires Inv(s) && p < |s.procs| && Active(s, p)
    ensures Inv(Advance(s, p)) && |Advance(s, p).procs| == |s.procs|
  {
    hide ProcOk, SharedOk, Advance;
    AdvanceSelf(s, p);
    forall i | 0 <= i < |s.procs| ensures ProcOk(Advance(s, p).g, |s.procs|, i, Advance(s, p).procs[i]) {
      if i != p {
        AdvanceOther(s, p, i);
      }
    }
  }

  lemma CallEvent(s: State, p: nat, what: Pc, i: nat)
    requires SharedOk(s.g, |s.procs|) && i < |s.procs| && ProcOk(s.g, |s.procs|, i, s.procs[i])
    requires p < |s.procs| && ProcOk(s.g, |s.procs|, p, s.procs[p])
    ensures |Next(s, Call(p, what)).procs| == |s.procs| && SharedOk(Next(s, Call(p, what)).g, |s.procs|)
    ensures ProcOk(Next(s, Call(p, what)).g, |s.procs|, i, Next(s, Call(p, what)).procs[i])
  {
    hide Advance;
  }

  lemma OtherEvent(s: State, e: Event, i: nat)
    requires !e.Step? && SharedOk(s.g, |s.procs|) && i < |s.procs| && ProcOk(s.g, |s.procs|, i, s.procs[i])
    requires e.SchedDispatch? || e.Call? || e.Kill? ==> e.p < |s.procs| ==> ProcOk(s.g, |s.procs|, e.p, s.procs[e.p])
    ensures |Next(s, e).procs| == |s.procs| && SharedOk(Next(s, e).g, |s.procs|)
    ensures ProcOk(Next(s, e).g, |s.procs|, i, Next(s, e).procs[i])
  {
    hide Advance, MayCall;
    if e.Call? && e.p < |s.procs| {
      CallEvent(s, e.p, e.what, i);
    }
  }

  /** Every step of every process, of the schedulers and of kill keeps the invariant. */
  lemma StepInv(s: State, e: Event)
    requires Inv(s)
    ensures Inv(Next(s, e)) && |Next(s, e).procs| == |s.procs|
  {
    if e.Step? {
      if Active(s, e.p) {
        AdvanceInv(s, e.p);
      }
    } else {
      forall i | 0 <= i < |s.procs|
        ensures |Next(s, e).procs| == |s.procs| && SharedOk(Next(s, e).g, |s.procs|)
        ensures ProcOk(Next(s, e).g, |s.procs|, i, Next(s, e).procs[i])
      {
        OtherEvent(s, e, i);
      }
    }
  }

  lemma {:induction false} RunInv(s: State, es: seq<Event>)
    requires Inv(s)
    ensures Inv(Run(s, es)) && |Run(s, es).procs| == |s.procs|
    decreases |es|
  {
    hide Inv, Next;
    if es == [] {
    } else {
      StepInv(s, es[0]);
      RunInv(Next(s, es[0]), es[1..]);
    }
  }

  /** Mutual exclusion: in every reachable state at most one process has returned from
      acquiresleep and not yet cleared the lock, and locked says whether one has. */
  lemma MutualExclusion(n: nat, es: seq<Event>, p: nat, q: nat)
    requires p < n && q < n
    ensures var s := Run(Init(n), es);
      && |s.procs| == n
      && (Owns(s.procs[p].pc) && Owns(s.procs[q].pc) ==> p == q)
      && (Owns(s.procs[p].pc) ==> s.g.locked)
  {
    InitInv(n);
    RunInv(Init(n), es);
    var s := Run(Init(n), es);
    assert ProcOk(s.g, n, p, s.procs[p]) && ProcOk(s.g, n, q, s.procs[q]);
  }

  /** No lost wakeup: in every reachable state in which the spinlock is free and locked is
      0, no process sleeps on the lock or is on its way to. */
  lemma NoLostWakeup(n: nat, es: seq<Event>, p: nat)
    requires p < n
    ensures var s := Run(Init(n), es);
      && |s.procs| == n
      && (s.g.lk == FREE && !s.g.locked ==> !(s.procs[p].st == SLEEPING && s.procs[p].chan) && !Committed(s.procs[p]))
  {
    InitInv(n);
    RunInv(Init(n), es);
    var s := Run(Init(n), es);
    assert ProcOk(s.g, n, p, s.procs[p]);
  }

  /** holdingsleep answers whether the caller holds the sleeplock. */
  lemma HoldingIsExact(n: nat, es: seq<Event>, p: nat)
    requires p < n
    ensures var s := Run(Init(n), es);
      && |s.procs| == n
      && (s.procs[p].pc.AskRelease? ==> s.procs[p].pc.r == Owns(s.procs[p].pc))
  {
    InitInv(n);
    RunInv(Init(n), es);
    var s := Run(Init(n), es);
    assert ProcOk(s.g, n, p, s.procs[p]);
  }

  // ---------------------------------------------------------------- the lock is to be had

  lemma RunCons(s: State, e: Event, es: seq<Event>)
    ensures Run(s, [e] + es) == Run(Next(s, e), es)
  {
    assert ([e] + es)[1..] == es;
  }

  lemma {:induction false} RunTwice(s: State, a: seq<Event>, b: seq<Event>)
    ensures Run(s, a + b) == Run(Run(s, a), b)
    decreases |a|
  {
    hide Next;
    if a == [] {
      assert a + b == b;
    } else {
      assert (a + b)[1..] == a[1..] + b;
      RunTwice(Next(s, a[0]), a[1..], b);
    }
  }

  /** Only process p moved, apart from sleepers made runnable. */
  predicate OnlyMoved(s: State, t: State, p: nat) {
    |t.procs| == |s.procs| && forall i :: 0 <= i < |s.procs| && i != p ==> t.procs[i].pc == s.procs[i].pc
  }

  /** Nobody is in the middle of anything: both spinlocks are free. */
  predicate Quiet(s: State) {
    s.g.lk == FREE && s.g.pt == FREE
  }

  /** Process p takes the steps of acquiresleep from its test of a free lock on. */
  lemma TakesLock(s: State, p: nat) returns (es: seq<Event>)
    requires Inv(s) && p < |s.procs| && s.procs[p].pc == AcqTest && !s.g.locked
    ensures var t := Run(s, es); t.procs == s.procs[p := s.procs[p].(pc := Holding)] && t.g.locked && t.g.owner == p
    ensures Run(s, es).g.lk == FREE && Run(s, es).g.pt == s.g.pt
  {
    assert ProcOk(s.g, |s.procs|, p, s.procs[p]);
    var e, x := Step(p), s.procs[p];
    var s1 := State(s.g, s.procs[p := x.(pc := AcqTake)]);
    var s2 := State(s.g.(locked := true, owner := p), s.procs[p := x.(pc := AcqPid)]);
    var s3 := State(s2.g.(pid := PidOf(p)), s.procs[p := x.(pc := AcqRelease)]);
    var s4 := State(s3.g.(lk := FREE), s.procs[p := x.(pc := Holding)]);
    assert Next(s, e) == s1 && Next(s1, e) == s2 && Next(s2, e) == s3 && Next(s3, e) == s4;
    hide *;
    es := [e] + ([e] + ([e] + ([e] + [])));
    RunCons(s, e, [e] + ([e] + ([e] + [])));
    RunCons(s1, e, [e] + ([e] + []));
    RunCons(s2, e, [e] + []);
    RunCons(s3, e, []);
    RunNothing(s4);
  }

  lemma RunNothing(s: State)
    ensures Run(s, []) == s
  {
  }

  /** acquiresleep of a free lock gets it. */
  lemma Uncontended(s: State, p: nat) returns (es: seq<Event>)
    requires Inv(s) && p < |s.procs| && s.procs[p].pc == Idle && Quiet(s) && !s.g.locked
    ensures var t := Run(s, es); t.procs == s.procs[p := s.procs[p].(pc := Holding)] && t.g.locked && t.g.owner == p
    ensures Quiet(Run(s, es))
  {
    hide Run, Advance;
    StepInv(s, Call(p, AcqWant));
    var s1 := Next(s, Call(p, AcqWant));
    StepInv(s1, Step(p));
    StartsAcquire(s, p);
    var s2 := Next(s1, Step(p));
    es := TakesLock(s2, p);
    RunCons(s1, Step(p), es);
    RunCons(s, Call(p, AcqWant), [Step(p)] + es);
    es := [Call(p, AcqWant)] + ([Step(p)] + es);
  }

  lemma StartsAcquire(s: State, p: nat)
    requires Inv(s) && p < |s.procs| && s.procs[p].pc == Idle && Quiet(s)
    ensures Next(Next(s, Call(p, AcqWant)), Step(p)) ==
      State(s.g.(lk := p), s.procs[p := s.procs[p].(pc := AcqTest)])
  {
    assert ProcOk(s.g, |s.procs|, p, s.procs[p]);
  }

  /** The state when a process that was woken is about to test the lock again. */
  function Resumed(s: State, p: nat): State
    requires p < |s.procs|
  {
    State(s.g.(lk := p), s.procs[p := s.procs[p].(st := RUNNING, chan := false, pc := AcqTest)])
  }

  lemma ResumeSteps(s: State, p: nat)
    requires p < |s.procs| && s.procs[p].pc == Asleep && Quiet(s) && s.procs[p].st == RUNNABLE
    ensures var e := Step(p);
      Next(Next(Next(Next(Next(s, SchedAcquire), SchedDispatch(p)), e), e), e) == Resumed(s, p)
  {
    var e, x := Step(p), s.procs[p];
    var s1 := State(s.g.(pt := SCHED), s.procs);
    var s2 := State(s.g.(pt := p), s.procs[p := x.(st := RUNNING, pc := WakeTidy)]);
    var s3 := State(s2.g, s.procs[p := x.(st := RUNNING, chan := false, pc := WakeRelease)]);
    var s4 := State(s.g, s.procs[p := x.(st := RUNNING, chan := false, pc := WakeWant)]);
    assert Next(s, SchedAcquire) == s1 && Next(s1, SchedDispatch(p)) == s2;
    assert Next(s2, e) == s3 && Next(s3, e) == s4 && Next(s4, e) == Resumed(s, p);
  }

  /** A process that was woken gets a free lock once it is scheduled. */
  lemma Resumes(s: State, p: nat) returns (es: seq<Event>)
    requires Inv(s) && p < |s.procs| && s.procs[p].pc == Asleep && Quiet(s) && !s.g.locked
    ensures var t := Run(s, es); OnlyMoved(s, t, p) && t.procs[p].pc == Holding && t.g.locked && t.g.owner == p
  {
    assert ProcOk(s.g, |s.procs|, p, s.procs[p]);
    hide Next, Run, ProcOk, SharedOk, Inv;
    ResumeSteps(s, p);
    var e, d, s1 := Step(p), SchedDispatch(p), Next(s, SchedAcquire);
    var s2 := Next(s1, d);
    StepInv(s, SchedAcquire);
    StepInv(s1, d);
    StepInv(s2, e);
    StepInv(Next(s2, e), e);
    StepInv(Next(Next(s2, e), e), e);
    var rest := TakesLock(Resumed(s, p), p);
    RunCons(Next(Next(s2, e), e), e, rest);
    RunCons(Next(s2, e), e, [e] + rest);
    RunCons(s2, e, [e] + ([e] + rest));
    RunCons(s1, d, [e] + ([e] + ([e] + rest)));
    RunCons(s, SchedAcquire, [d] + ([e] + ([e] + ([e] + rest))));
    es := [SchedAcquire] + ([d] + ([e] + ([e] + ([e] + rest))));
  }

  lemma ScanStep(s: State, p: nat)
    requires Inv(s) && p < |s.procs| && s.procs[p].pc.WakeupScan?
    ensures var t, k := Next(s, Step(p)), s.procs[p].pc.k;
      && Inv(t) && OnlyMoved(s, t, p) && t.g.lk == s.g.lk && t.g.pt == s.g.pt && t.g.locked == s.g.locked
      && 0 <= k <= |s.procs|
      && t.procs[p].pc == if k < |s.procs| then WakeupScan(k + 1) else WakeupDone
  {
    assert ProcOk(s.g, |s.procs|, p, s.procs[p]);
    StepInv(s, Step(p));
  }

  /** wakeup's loop runs to its end. */
  lemma {:induction false} Scans(s: State, p: nat) returns (es: seq<Event>)
    requires Inv(s) && p < |s.procs| && s.procs[p].pc.WakeupScan?
    ensures var t := Run(s, es);
      && Inv(t) && OnlyMoved(s, t, p) && t.procs[p].pc == WakeupDone
      && t.g.lk == s.g.lk && t.g.pt == s.g.pt && t.g.locked == s.g.locked
    decreases |s.procs| - s.procs[p].pc.k
  {
    hide Inv, Next, Run;
    ScanStep(s, p);
    var t := Next(s, Step(p));
    if t.procs[p].pc.WakeupScan? {
      es := Scans(t, p);
    } else {
      es := [];
      RunNothing(t);
    }
    RunCons(s, Step(p), es);
    es := [Step(p)] + es;
  }

  /** The state when releasesleep is about to run wakeup's loop. */
  function BeforeScan(s: State, p: nat): State
    requires p < |s.procs|
  {
    State(s.g.(lk := p, pt := p, locked := false, owner := FREE, due := 0, pid := 0),
          s.procs[p := s.procs[p].(pc := WakeupScan(0))])
  }

  /** ... and when it has the lock's spinlock. */
  function Clearing(s: State, p: nat): State
    requires p < |s.procs|
  {
    State(s.g.(lk := p), s.procs[p := s.procs[p].(pc := RelClear)])
  }

  lemma ClearingSteps(s: State, p: nat)
    requires p < |s.procs| && s.procs[p].pc == Holding && Quiet(s) && s.procs[p].st == RUNNING
    ensures Next(Next(s, Call(p, RelWant)), Step(p)) == Clearing(s, p)
  {
    assert Next(s, Call(p, RelWant)) == State(s.g, s.procs[p := s.procs[p].(pc := RelWant)]);
  }

  lemma ScanningSteps(s: State, p: nat)
    requires p < |s.procs| && Quiet(s) && s.procs[p].st == RUNNING
    ensures var e := Step(p); Next(Next(Next(Clearing(s, p), e), e), e) == BeforeScan(s, p)
  {
    var x := s.procs[p];
    var s3 := State(s.g.(lk := p, locked := false, owner := FREE, due := 0), s.procs[p := x.(pc := RelPid)]);
    var s4 := State(s3.g.(pid := 0), s.procs[p := x.(pc := WakeupWant)]);
    assert Next(Clearing(s, p), Step(p)) == s3 && Next(s3, Step(p)) == s4 && Next(s4, Step(p)) == BeforeScan(s, p);
  }

  lemma ReleaseSteps(s: State, p: nat)
    requires p < |s.procs| && s.procs[p].pc == Holding && Quiet(s) && s.procs[p].st == RUNNING
    ensures var e := Step(p); Next(Next(Next(Next(Next(s, Call(p, RelWant)), e), e), e), e) == BeforeScan(s, p)
  {
    hide Next, Clearing, BeforeScan;
    ClearingSteps(s, p);
    ScanningSteps(s, p);
  }

  lemma StartsRelease(s: State, p: nat)
    requires Inv(s) && p < |s.procs| && s.procs[p].pc == Holding && Quiet(s)
    ensures s.procs[p].st == RUNNING && Inv(BeforeScan(s, p))
    ensures var e := Step(p); Next(Next(Next(Next(Next(s, Call(p, RelWant)), e), e), e), e) == BeforeScan(s, p)
  {
    assert ProcOk(s.g, |s.procs|, p, s.procs[p]);
    hide Next, Inv, ProcOk, SharedOk;
    ReleaseSteps(s, p);
    var e, s1 := Step(p), Next(s, Call(p, RelWant));
    StepInv(s, Call(p, RelWant));
    StepInv(s1, e);
    StepInv(Next(s1, e), e);
    StepInv(Next(Next(s1, e), e), e);
    StepInv(Next(Next(Next(s1, e), e), e), e);
  }

  lemma EndsRelease(s: State, p: nat)
    requires Inv(s) && p < |s.procs| && s.procs[p].pc == WakeupDone
    ensures var t := Next(Next(s, Step(p)), Step(p));
      && Inv(t) && OnlyMoved(s, t, p) && t.procs[p].pc == Idle && Quiet(t) && t.g.locked == s.g.locked
  {
    assert ProcOk(s.g, |s.procs|, p, s.procs[p]);
    StepInv(s, Step(p));
    StepInv(Next(s, Step(p)), Step(p));
  }

  /** releasesleep runs to its end, and then the lock is free and nobody sleeps on it. */
  lemma Releases(s: State, p: nat) returns (es: seq<Event>)
    requires Inv(s) && p < |s.procs| && s.procs[p].pc == Holding && Quiet(s)
    ensures var t := Run(s, es);
      && Inv(t) && OnlyMoved(s, t, p) && t.procs[p].pc == Idle && Quiet(t) && !t.g.locked
      && forall i :: 0 <= i < |t.procs| ==> !Committed(t.procs[i])
  {
    hide Inv, Next, Run;
    StartsRelease(s, p);
    var e, c := Step(p), Call(p, RelWant);
    var s1 := Next(s, c);
    var s2 := Next(s1, e);
    var s3 := Next(s2, e);
    var s4 := Next(s3, e);
    var s5 := Next(s4, e);
    var scan := Scans(s5, p);
    var s6 := Run(s5, scan);
    EndsRelease(s6, p);
    var s7 := Next(s6, e);
    RunNothing(Next(s7, e));
    RunCons(s7, e, []);
    RunCons(s6, e, [e] + []);
    var last := [e] + ([e] + []);
    RunTwice(s5, scan, last);
    RunCons(s4, e, scan + last);
    RunCons(s3, e, [e] + (scan + last));
    RunCons(s2, e, [e] + ([e] + (scan + last)));
    RunCons(s1, e, [e] + ([e] + ([e] + (scan + last))));
    RunCons(s, c, [e] + ([e] + ([e] + ([e] + (scan + last)))));
    es := [c] + ([e] + ([e] + ([e] + ([e] + (scan + last)))));
    NobodySleeps(Run(s, es));
  }

  lemma NobodySleeps(s: State)
    requires Inv(s) && Quiet(s) && !s.g.locked
    ensures forall i :: 0 <= i < |s.procs| ==> !Committed(s.procs[i])
  {
    forall i | 0 <= i < |s.procs| ensures !Committed(s.procs[i]) {
      assert ProcOk(s.g, |s.procs|, i, s.procs[i]);
    }
  }

  /** The lock can be handed over: from every reachable state in which p holds it, q sleeps
      on it and no step is half done, p's releasesleep and the scheduler give it to q. */
  lemma HandOver(n: nat, before: seq<Event>, p: nat, q: nat) returns (es: seq<Event>)
    requires var s := Run(Init(n), before);
      p < |s.procs| && q < |s.procs| && s.procs[p].pc == Holding && s.procs[q].pc == Asleep && Quiet(s)
    ensures var t := Run(Init(n), before + es);
      |t.procs| == n && q < n && t.procs[q].pc == Holding && t.g.owner == q && (p < n ==> t.procs[p].pc == Idle)
  {
    hide Inv, Next, Run;
    InitInv(n);
    RunInv(Init(n), before);
    var s := Run(Init(n), before);
    var a := Releases(s, p);
    var b := Resumes(Run(s, a), q);
    es := a + b;
    RunTwice(s, a, b);
    RunTwice(Init(n), before, es);
  }
}
