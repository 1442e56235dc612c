/** Whole runs of writes and truncations (fs.c), against byte strings with a block budget:
    what the files hold, which of their blocks are there, and how many blocks are free. */
module FsRuns {
  import opened Volume
  import opened Fs

  datatype Op = WriteAt(i: nat, off: nat, data: seq<byte>) | Truncate(i: nat)

  /** The file exists; offsets and lengths are 32-bit. */
  predicate OpOk(op: Op, files: nat) {
    op.i < files && (op.WriteAt? ==> op.off < WORD && |op.data| < WORD)
  }

  // ---------------------------------------------------------------- the budget

  /** Which blocks of a file are there, and whether its indirect block is. */
  datatype Plan = Plan(have: seq<bool>, indirect: bool)

  function NoBlocks(): Plan {
    Plan(seq(MAXFILE, _ => false), false)
  }

  datatype Layout = Layout(files: seq<seq<byte>>, plans: seq<Plan>, device: seq<bool>, free: int)

  predicate LayoutOk(l: Layout) {
    |l.plans| == |l.files| == |l.device| && forall i :: 0 <= i < |l.plans| ==> |l.plans[i].have| == MAXFILE
  }

  function Absent(have: seq<bool>, lo: int, hi: int): nat
    decreases hi - lo
  {
    if hi <= lo then 0 else Absent(have, lo, hi - 1) + if 0 <= hi - 1 < |have| && have[hi - 1] then 0 else 1
  }

  /** What is missing for a write to the blocks [lo, hi). */
  function Lack(p: Plan, lo: int, hi: int): nat {
    Absent(p.have, lo, hi) + if lo < hi && NDIRECT < hi && !p.indirect then 1 else 0
  }

  function Filled(p: Plan, lo: int, hi: int): Plan {
    Plan(seq(|p.have|, k requires 0 <= k < |p.have| => p.have[k] || lo <= k < hi),
         p.indirect || (lo < hi && NDIRECT < hi))
  }

  /** How many blocks a file has. */
  function Weight(p: Plan): int {
    |p.have| - Absent(p.have, 0, |p.have|) + if p.indirect then 1 else 0
  }

  /** The write is not refused and does not go to a device. */
  predicate Accepted(l: Layout, op: Op)
    requires LayoutOk(l) && OpOk(op, |l.files|)
  {
    op.WriteAt? && !l.device[op.i] && op.off <= |l.files[op.i]| && op.off + |op.data| <= MAXBYTES
  }

  predicate FitsIn(l: Layout, op: Op)
    requires LayoutOk(l) && OpOk(op, |l.files|)
  {
    Accepted(l, op) ==> Lack(l.plans[op.i], op.off / BSIZE, EndBlock(op.off, |op.data|)) <= l.free
  }

  /** The operation on byte strings, and what it takes from the free blocks or gives back. */
  function Step(l: Layout, op: Op): (r: Layout)
    requires LayoutOk(l) && OpOk(op, |l.files|)
    ensures LayoutOk(r) && |r.files| == |l.files|
  {
    match op
    case WriteAt(i, off, data) =>
      if !Accepted(l, op) then l
      else
        var lo, hi := off / BSIZE, EndBlock(off, |data|);
        l.(files := l.files[i := Splice(l.files[i], off, data)], plans := l.plans[i := Filled(l.plans[i], lo, hi)],
           free := l.free - Lack(l.plans[i], lo, hi))
    case Truncate(i) =>
      l.(files := l.files[i := []], plans := l.plans[i := NoBlocks()], free := l.free + Weight(l.plans[i]))
  }

  predicate OpsOk(l: Layout, ops: seq<Op>) {
    LayoutOk(l) && forall n :: 0 <= n < |ops| ==> OpOk(ops[n], |l.files|)
  }

  /** After the first n operations. */
  function After(l: Layout, ops: seq<Op>, n: nat): (r: Layout)
    requires OpsOk(l, ops) && n <= |ops|
    ensures LayoutOk(r) && |r.files| == |l.files|
  {
    if n == 0 then l else Step(After(l, ops, n - 1), ops[n - 1])
  }

  // ---------------------------------------------------------------- the last writer wins

  /** How long file i is after the first n operations. */
  function LengthAfter(l: Layout, ops: seq<Op>, n: nat, i: nat): nat
    requires OpsOk(l, ops) && n <= |ops| && i < |l.files|
  {
    if n == 0 then |l.files[i]|
    else
      var op, was := ops[n - 1], LengthAfter(l, ops, n - 1, i);
      if op.i != i then was
      else if op.Truncate? then 0
      else if Accepted(After(l, ops, n - 1), op) then Max(was, op.off + |op.data|) else was
  }

  /** The last operation before n that gave file i its byte k, or -1: it has it from the
      start. */
  function Giver(l: Layout, ops: seq<Op>, n: nat, i: nat, k: nat): (g: int)
    requires OpsOk(l, ops) && n <= |ops| && i < |l.files|
    ensures -1 <= g < n && (g >= 0 ==> ops[g].WriteAt? && ops[g].off <= k < ops[g].off + |ops[g].data|)
  {
    if n == 0 then -1
    else
      var op := ops[n - 1];
      if op.i == i && Accepted(After(l, ops, n - 1), op) && op.off <= k < op.off + |op.data| then n - 1
      else Giver(l, ops, n - 1, i, k)
  }

  /** In every run each byte of a file is what the last accepted write to it gave, and the
      length is that of the furthest write since the last truncation. */
  lemma {:induction false} LastWriter(l: Layout, ops: seq<Op>, n: nat, i: nat, k: nat)
    requires OpsOk(l, ops) && n <= |ops| && i < |l.files|
    ensures var f := After(l, ops, n).files[i];
      && |f| == LengthAfter(l, ops, n, i)
      && (k < |f| ==>
            var g := Giver(l, ops, n, i, k);
            if g >= 0 then f[k] == ops[g].data[k - ops[g].off] else k < |l.files[i]| && f[k] == l.files[i][k])
  {
    hide Lack, Filled, Weight;
    if n == 0 {
    } else {
      LastWriter(l, ops, n - 1, i, k);
    }
  }

  // ---------------------------------------------------------------- no block is lost

  function Total(plans: seq<Plan>): int
    decreases |plans|
  {
    if plans == [] then 0 else Total(plans[..|plans| - 1]) + Weight(plans[|plans| - 1])
  }

  lemma {:induction false} TotalUpdate(plans: seq<Plan>, i: nat, p: Plan)
    requires i < |plans|
    ensures Total(plans[i := p]) == Total(plans) - Weight(plans[i]) + Weight(p)
    decreases |plans|
  {
    hide Weight;
    var n := |plans| - 1;
    if i == n {
      assert plans[i := p][..n] == plans[..n];
    } else {
      TotalUpdate(plans[..n], i, p);
      assert plans[i := p][..n] == plans[..n][i := p];
    }
  }

  lemma {:induction false} AbsentFilled(p: Plan, lo: nat, hi: nat, n: nat)
    requires lo <= hi && n <= |p.have|
    ensures Absent(Filled(p, lo, hi).have, 0, n) == Absent(p.have, 0, n) - Absent(p.have, lo, Min(n, hi))
  {
    if n == 0 {
    } else {
      AbsentFilled(p, lo, hi, n - 1);
    }
  }

  lemma {:induction false} AllAbsent(n: nat)
    requires n <= MAXFILE
    ensures Absent(NoBlocks().have, 0, n) == n
  {
    if n == 0 {
    } else {
      AllAbsent(n - 1);
    }
  }

  /** A write makes the file heavier by exactly what was missing. */
  lemma FilledWeight(p: Plan, lo: nat, hi: nat)
    requires lo <= hi <= |p.have|
    ensures Weight(Filled(p, lo, hi)) == Weight(p) + Lack(p, lo, hi)
  {
    AbsentFilled(p, lo, hi, |p.have|);
  }

  lemma EndsInFile(off: nat, n: nat)
    requires off + n <= MAXBYTES
    ensures off / BSIZE <= EndBlock(off, n) <= MAXFILE
  {
  }

  /** Free blocks and blocks of files add up to the same number whatever the operation. */
  lemma Conserved(l: Layout, op: Op)
    requires LayoutOk(l) && OpOk(op, |l.files|)
    ensures Step(l, op).free + Total(Step(l, op).plans) == l.free + Total(l.plans)
  {
    hide Total, Weight, Lack, Filled, NoBlocks;
    match op
    case WriteAt(i, off, data) =>
      if Accepted(l, op) {
        var lo, hi := off / BSIZE, EndBlock(off, |data|);
        EndsInFile(off, |data|);
        FilledWeight(l.plans[i], lo, hi);
        TotalUpdate(l.plans, i, Filled(l.plans[i], lo, hi));
      }
    case Truncate(i) =>
      NoWeight();
      TotalUpdate(l.plans, i, NoBlocks());
  }

  /** In every run of the budget no block is lost or made up. */
  lemma {:induction false} ConservedRun(l: Layout, ops: seq<Op>, n: nat)
    requires OpsOk(l, ops) && n <= |ops|
    ensures After(l, ops, n).free + Total(After(l, ops, n).plans) == l.free + Total(l.plans)
  {
    hide Total, Step, LayoutOk;
    if n == 0 {
    } else {
      ConservedRun(l, ops, n - 1);
      Conserved(After(l, ops, n - 1), ops[n - 1]);
    }
  }

  lemma NoWeight()
    ensures Weight(NoBlocks()) == 0
  {
    AllAbsent(MAXFILE);
  }

  // ---------------------------------------------------------------- volumes

  function PlanOf(v: Vol, i: int): Plan {
    Plan(seq(MAXFILE, k => Addr(v, i, k) != 0), At(v, Ptr(i, NDIRECT)) != 0)
  }

  function LayoutOf(v: Vol): (l: Layout)
    ensures LayoutOk(l) && |l.files| == |v.ino|
  {
    Layout(seq(|v.ino|, i requires 0 <= i < |v.ino| => Content(v, i)), seq(|v.ino|, i => PlanOf(v, i)),
           seq(|v.ino|, i requires 0 <= i < |v.ino| => v.ino[i].kind == T_DEV), FreeCount(v.used))
  }

  lemma {:induction false} MissingIsAbsent(v: Vol, i: int, lo: nat, hi: nat)
    ensures Missing(v, i, lo, hi) == Absent(PlanOf(v, i).have, lo, hi)
    decreases hi
  {
    if hi <= lo {
    } else {
      MissingIsAbsent(v, i, lo, hi - 1);
      assert hi - 1 >= MAXFILE ==> Addr(v, i, hi - 1) == 0;
    }
  }

  lemma NeedIsLack(v: Vol, i: int, lo: nat, hi: nat)
    ensures Need(v, i, lo, hi) == Lack(PlanOf(v, i), lo, hi)
  {
    MissingIsAbsent(v, i, lo, hi);
  }

  lemma TookPlan(v0: Vol, v: Vol, i: int, lo: nat, hi: nat)
    requires Mapped(v0, v, i, lo, hi) && lo <= hi <= MAXFILE
    ensures PlanOf(v, i) == Filled(PlanOf(v0, i), lo, hi)
  {
    if lo < hi && NDIRECT < hi {
      assert Addr(v, i, hi - 1) != 0;
    }
  }

  lemma KeptPlan(v0: Vol, v: Vol, i: int, m: int)
    requires OthersKept(v0, v, i) && m != i
    ensures PlanOf(v, m) == PlanOf(v0, m)
  {
    forall k: int ensures Addr(v, m, k) == Addr(v0, m, k) {
      assert At(v, SlotOf(m, k)) == At(v0, SlotOf(m, k));
    }
    assert At(v, Ptr(m, NDIRECT)) == At(v0, Ptr(m, NDIRECT));
  }

  lemma TruncatedPlan(v: Vol, owner: Owner, i: nat)
    requires Inv(v, owner) && i < |v.ino|
    ensures PlanOf(Truncated(v, owner, i), i) == NoBlocks() && OthersKept(v, Truncated(v, owner, i), i)
    ensures FreeCount(Truncated(v, owner, i).used) == FreeCount(v.used) + Weight(PlanOf(v, i))
  {
    var t := Truncated(v, owner, i);
    forall s: Slot ensures At(t, s) == if s.i == i then 0 else At(v, s) {
      TruncatedAt(v, owner, i, s);
    }
    assert PlanOf(t, i).have == NoBlocks().have;
    hide FreeCount, Truncated;
    TruncatedGives(v, owner, i);
    MissingIsAbsent(v, i, 0, MAXFILE);
  }

  /** The layout when only file i has changed. */
  lemma OneFile(v0: Vol, v: Vol, i: nat, bytes: seq<byte>, p: Plan, free: int)
    requires i < |v0.ino| == |v.ino| && OthersKept(v0, v, i)
    requires Content(v, i) == bytes && PlanOf(v, i) == p && FreeCount(v.used) == free
    requires v.ino[i].kind == v0.ino[i].kind
    requires forall m :: 0 <= m < |v.ino| && m != i ==> v.ino[m] == v0.ino[m] && Content(v, m) == Content(v0, m)
    ensures var l := LayoutOf(v0);
      LayoutOf(v) == l.(files := l.files[i := bytes], plans := l.plans[i := p], free := free)
  {
    hide PlanOf, Content, FreeCount;
    forall m | 0 <= m < |v.ino| && m != i ensures PlanOf(v, m) == PlanOf(v0, m) {
      KeptPlan(v0, v, i, m);
    }
    var l, l' := LayoutOf(v0), LayoutOf(v);
    assert l'.files == l.files[i := bytes];
    assert l'.plans == l.plans[i := p];
    assert l'.device == l.device;
  }

  lemma WriteFits(v: Vol, i: nat, off: nat, data: seq<byte>)
    requires i < |v.ino| && OpOk(WriteAt(i, off, data), |v.ino|)
    ensures Accepted(LayoutOf(v), WriteAt(i, off, data)) <==>
      v.ino[i].kind != T_DEV && off <= Size(v, i) && off + |data| <= MAXBYTES
    ensures FitsIn(LayoutOf(v), WriteAt(i, off, data)) <==>
      (Accepted(LayoutOf(v), WriteAt(i, off, data)) ==>
       Need(v, i, off / BSIZE, EndBlock(off, |data|)) <= FreeCount(v.used))
  {
    hide Need, Lack, FreeCount, PlanOf;
    NeedIsLack(v, i, off / BSIZE, EndBlock(off, |data|));
    assert |Content(v, i)| == Size(v, i);
  }

  lemma WriteStep(v0: Vol, v: Vol, i: nat, off: nat, data: seq<byte>)
    requires i < |v0.ino| == |v.ino| && OpOk(WriteAt(i, off, data), |v0.ino|)
    requires Accepted(LayoutOf(v0), WriteAt(i, off, data))
    requires off <= Size(v0, i) && Content(v, i) == Splice(Content(v0, i), off, data)
    requires v.ino[i].kind == v0.ino[i].kind && Took(v0, v, i, off / BSIZE, EndBlock(off, |data|))
    requires forall m :: 0 <= m < |v.ino| && m != i ==> v.ino[m] == v0.ino[m] && Content(v, m) == Content(v0, m)
    ensures LayoutOf(v) == Step(LayoutOf(v0), WriteAt(i, off, data))
  {
    hide Need, Lack, FreeCount, Filled, PlanOf, Content, Splice;
    var lo, hi := off / BSIZE, EndBlock(off, |data|);
    EndsInFile(off, |data|);
    NeedIsLack(v0, i, lo, hi);
    TookPlan(v0, v, i, lo, hi);
    OneFile(v0, v, i, Content(v, i), PlanOf(v, i), FreeCount(v.used));
  }

  lemma TruncateStep(v0: Vol, owner: Owner, i: nat)
    requires Inv(v0, owner) && i < |v0.ino|
    ensures LayoutOf(Truncated(v0, owner, i)) == Step(LayoutOf(v0), Truncate(i))
  {
    hide Inv, FreeCount, Weight, PlanOf, Content, NoBlocks;
    var t := Truncated(v0, owner, i);
    TruncatedPlan(v0, owner, i);
    TruncateInv(v0, owner, i);
    OneFile(v0, t, i, [], NoBlocks(), FreeCount(t.used));
  }

  lemma Refused(v: Vol, op: Op)
    requires OpOk(op, |v.ino|) && op.WriteAt? && !Accepted(LayoutOf(v), op)
    ensures Step(LayoutOf(v), op) == LayoutOf(v)
  {
  }

  lemma TruncateFits(fs: FileSystem, i: nat)
    requires fs.Valid() && i < |fs.v.ino|
    ensures FitsIn(LayoutOf(fs.v), Truncate(i))
    ensures LayoutOf(Truncated(fs.v, fs.owner, i)) == Step(LayoutOf(fs.v), Truncate(i))
  {
    TruncateStep(fs.v, fs.owner, i);
  }

  /** One write or truncation does to the layout what Step says; false, the panic, exactly
      when it does not fit. */
  method Do(fs: FileSystem, op: Op) returns (ok: bool)
    requires fs.Valid() && OpOk(op, |fs.v.ino|)
    modifies fs
    ensures ok <==> FitsIn(LayoutOf(old(fs.v)), op)
    ensures ok ==> fs.Valid() && LayoutOf(fs.v) == Step(LayoutOf(old(fs.v)), op) && |fs.v.ino| == |old(fs.v).ino|
  {
    hide FileSystem.Valid, Need, FreeCount, LayoutOf, Accepted, FitsIn, Step, Took, Content, Splice, LogBound;
    ghost var v0, o0 := fs.v, fs.owner;
    match op
    case WriteAt(i, off, data) =>
      WriteFits(v0, i, off, data);
      var r := fs.Writei(i, data, off);
      ok := !r.Panic?;
      if r.Bytes? {
        WriteStep(v0, fs.v, i, off, data);
      } else if !r.Panic? {
        Refused(v0, op);
      }
    case Truncate(i) =>
      TruncateFits(fs, i);
      ok := fs.Itrunc(i);
  }

  /** Any sequence of writes and truncations, on any volume, acts as it does on byte
      strings with a block budget: it stops early, with the panic, exactly at the first
      operation that does not fit. */
  method RunOps(fs: FileSystem, ops: seq<Op>) returns (ok: bool, done: nat)
    requires fs.Valid() && forall n :: 0 <= n < |ops| ==> OpOk(ops[n], |fs.v.ino|)
    modifies fs
    ensures OpsOk(LayoutOf(old(fs.v)), ops) && done <= |ops|
    ensures ok <==> done == |ops|
    ensures forall n :: 0 <= n < done ==> FitsIn(After(LayoutOf(old(fs.v)), ops, n), ops[n])
    ensures !ok ==> !FitsIn(After(LayoutOf(old(fs.v)), ops, done), ops[done])
    ensures ok ==> fs.Valid() && LayoutOf(fs.v) == After(LayoutOf(old(fs.v)), ops, |ops|)
  {
    hide FileSystem.Valid, LayoutOk, FitsIn, Step;
    ghost var l := LayoutOf(fs.v);
    done := 0;
    while done < |ops|
      invariant 0 <= done <= |ops| && fs.Valid() && |fs.v.ino| == |old(fs.v).ino|
      invariant LayoutOf(fs.v) == After(l, ops, done)
      invariant forall n :: 0 <= n < done ==> FitsIn(After(l, ops, n), ops[n])
    {
      ok := Do(fs, ops[done]);
      if !ok {
        return;
      }
      done := done + 1;
    }
    ok := true;
  }
}
