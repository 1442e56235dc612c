/** Physical frames (kalloc.c): the free list threaded through runArr, and the
    per-frame reference counts that copy-on-write needs. */
module Kalloc {
  import opened Basics

  const MAXPAGES := 57344

  // ---------------------------------------------------------------- specification

  /** Reference counts, the free list (head first) and the count of frames in use. */
  datatype Frames = Frames(refs: seq<int>, free: seq<int>, occupied: int)

  function Span(lo: int, hi: int): (s: set<int>)
    ensures forall f :: f in s <==> lo <= f < hi
    decreases hi - lo
  {
    if lo >= hi then {} else Span(lo, hi - 1) + {hi - 1}
  }

  /** The free list holds exactly the managed frames nobody references, each once
      (so it has no cycle); an unmanaged frame (boot memory) is never on it. */
  predicate FramesOk(m: Frames, managed: set<int>) {
    && |m.refs| == MAXPAGES && Distinct(m.free)
    && (forall f :: f in managed ==> 0 <= f < MAXPAGES)
    && (forall i :: 0 <= i < |m.free| ==> m.free[i] in managed && m.refs[m.free[i]] == 0)
    && (forall f :: f in managed ==> m.refs[f] >= 0 && (m.refs[f] == 0 ==> f in m.free))
    && |m.free| + m.occupied == |managed|
  }

  predicate AllZero(refs: seq<int>) {
    forall f :: 0 <= f < |refs| ==> refs[f] == 0
  }

  /** kalloc on a nonempty free list. */
  function Alloc(m: Frames): Frames
    requires m.free != [] && 0 <= m.free[0] < |m.refs|
  {
    Frames(m.refs[m.free[0] := 1], m.free[1..], m.occupied + 1)
  }

  /** kfree, once past its checks. */
  function Free(m: Frames, f: int): Frames
    requires 0 <= f < |m.refs|
  {
    Frames(m.refs[f := 0], [f] + m.free, m.occupied - 1)
  }

  function Inc(m: Frames, f: int): Frames
    requires 0 <= f < |m.refs|
  {
    m.(refs := m.refs[f := m.refs[f] + 1])
  }

  /** decrementReferencesAndGetPrevVal leaves a count of 1 alone. */
  function Dec(m: Frames, f: int): Frames
    requires 0 <= f < |m.refs|
  {
    if m.refs[f] > 1 then m.(refs := m.refs[f := m.refs[f] - 1]) else m
  }

  lemma AllocOk(m: Frames, managed: set<int>)
    requires FramesOk(m, managed) && m.free != []
    ensures FramesOk(Alloc(m), managed)
  {
    var f := m.free[0];
    forall g | g in managed && g != f && m.refs[g] == 0
      ensures g in m.free[1..]
    {
      var i :| 0 <= i < |m.free| && m.free[i] == g;
      assert m.free[1..][i - 1] == g;
    }
  }

  lemma FreeOk(m: Frames, managed: set<int>, f: int)
    requires FramesOk(m, managed) && f in managed && m.refs[f] > 0
    ensures FramesOk(Free(m, f), managed)
  {
    assert forall i :: 0 <= i < |m.free| ==> m.free[i] != f;
  }

  // ---------------------------------------------------------------- implementation

  /** runArr[f].next links the free list; -1 is the null pointer. */
  predicate Chain(next: seq<int>, freelist: int, free: seq<int>) {
    && |next| == MAXPAGES
    && (forall i :: 0 <= i < |free| ==> 0 <= free[i] < MAXPAGES)
    && freelist == (if free == [] then -1 else free[0])
    && forall i {:trigger next[free[i]]} :: 0 <= i < |free| ==>
         next[free[i]] == if i + 1 < |free| then free[i + 1] else -1
  }

  lemma InitFrames(x: Frames, managed: set<int>, f: int)
    requires FramesOk(x, managed) && 0 <= f < MAXPAGES && f !in managed
    ensures f !in x.free && FramesOk(Frames(x.refs[f := 0], [f] + x.free, x.occupied), managed + {f})
  {
  }

  lemma InitChain(next: seq<int>, head: int, free: seq<int>, f: int)
    requires Chain(next, head, free) && 0 <= f < |next| && f !in free
    ensures Chain(next[f := head], f, [f] + free)
  {
  }

  class Kmem {
    /** The first managed frame and the first past PHYSTOP. */
    const first: int
    const limit: int
    var next: seq<int>
    var refs: seq<int>
    var freelist: int
    var occupied: int
    ghost var free: seq<int>
    ghost var managed: set<int>

    ghost function Abs(): Frames
      reads this
    {
      Frames(refs, free, occupied)
    }

    ghost predicate Valid()
      reads this
    {
      && 0 <= first <= limit <= MAXPAGES
      && Chain(next, freelist, free) && FramesOk(Abs(), managed)
      && forall f :: f in managed ==> first <= f < limit
    }

    /** kinit1 and kinit2: freerange over [first, mid), then over [mid, limit). */
    constructor (first: int, mid: int, limit: int)
      requires 0 <= first <= mid <= limit <= MAXPAGES
      ensures Valid() && this.first == first && this.limit == limit
      ensures managed == Span(first, limit) && occupied == 0
      ensures |free| == limit - first && AllZero(refs)
    {
      this.first, this.limit := first, limit;
      next, refs, freelist, occupied := seq(MAXPAGES, _ => 0), seq(MAXPAGES, _ => 0), -1, 0;
      free, managed := [], {};
      new;
      FreeRange(first, mid);
      FreeRange(mid, limit);
    }

    /** freerange: hand the frames of [lo, hi) to the allocator. */
    method FreeRange(lo: int, hi: int)
      requires Valid() && first <= lo <= hi <= limit && managed !! Span(lo, hi)
      modifies this`next, this`refs, this`freelist, this`free, this`managed
      ensures Valid() && managed == old(managed) + Span(lo, hi)
      ensures |free| == |old(free)| + hi - lo
      ensures AllZero(old(refs)) ==> AllZero(refs)
    {
      hide Kmem.Valid, AllZero;
      var p := lo;
      while p < hi
        invariant lo <= p <= hi && Valid() && managed == old(managed) + Span(lo, p)
        invariant |free| == |old(free)| + p - lo
        invariant AllZero(old(refs)) ==> AllZero(refs)
      {
        KfreeInit(p);
        p := p + 1;
      }
    }

    /** _kfree: used only while the allocator is being set up. */
    method KfreeInit(f: int)
      requires Valid() && first <= f < limit && f !in managed
      modifies this`next, this`refs, this`freelist, this`free, this`managed
      ensures Valid() && managed == old(managed) + {f} && free == [f] + old(free)
      ensures AllZero(old(refs)) ==> AllZero(refs)
    {
      InitFrames(Abs(), managed, f);
      InitChain(next, freelist, free, f);
      hide FramesOk, Chain;
      next := next[f := freelist];
      refs := refs[f := 0];
      freelist := f;
      free, managed := [f] + free, managed + {f};
    }

    /** kalloc; -1 is the null pointer. */
    method KallocFrame() returns (f: int)
      requires Valid()
      modifies this`refs, this`freelist, this`occupied, this`free
      ensures Valid()
      ensures old(free) == [] ==> f == -1 && Abs() == old(Abs())
      ensures old(free) != [] ==> f == old(free)[0] && f in managed && old(refs)[f] == 0 && Abs() == Alloc(old(Abs()))
    {
      f := freelist;
      if f != -1 {
        AllocOk(Abs(), managed);
        freelist := next[f];
        refs := refs[f := 1];
        occupied := occupied + 1;
        free := free[1..];
      }
    }

    /** kfree; false is one of its panics. */
    method Kfree(f: int) returns (ok: bool)
      requires Valid() && (first <= f < limit ==> f in managed)
      modifies this`next, this`refs, this`freelist, this`occupied, this`free
      ensures Valid() && ok == (first <= f < limit && old(refs)[f] == 1)
      ensures ok ==> Abs() == Free(old(Abs()), f)
      ensures !ok ==> Abs() == old(Abs())
    {
      if f < first || f >= limit {
        return false;
      }
      if refs[f] != 1 {
        return false;
      }
      FreeOk(Abs(), managed, f);
      next := next[f := freelist];
      refs := refs[f := 0];
      occupied := occupied - 1;
      freelist := f;
      free := [f] + free;
      return true;
    }

    method IncrementReferences(f: int)
      requires Valid() && f in managed && refs[f] > 0
      modifies this`refs
      ensures Valid() && Abs() == Inc(old(Abs()), f)
    {
      refs := refs[f := refs[f] + 1];
    }

    method DecrementReferencesAndGetPrevVal(f: int) returns (ans: int)
      requires Valid() && f in managed
      modifies this`refs
      ensures Valid() && ans == old(refs)[f] && Abs() == Dec(old(Abs()), f)
    {
      ans := refs[f];
      if refs[f] > 1 {
        refs := refs[f := refs[f] - 1];
      }
    }
  }
}

/** Every interleaving of processes that allocate, share and drop frames.  Dropping is
    two separate critical sections: decrementReferencesAndGetPrevVal, and then, if it
    returned 1, either kfree (deallocuvm, freevm, pageToSwapFile) or keeping the frame
    (onPageFaultCow). */
module FrameLifetime {
  import opened Kalloc

  /** `holders[f]` are the references to frame f; `pending` are the (frame, holder)
      pairs between the two sections of a drop that saw a count of 1. */
  datatype State = State(m: Frames, holders: map<int, set<int>>, pending: set<(int, int)>)

  datatype Event =
    | Allocate(h: int)
    | Share(f: int, h: int, other: int)
    | Decrement(f: int, h: int)
    | FreeLast(f: int, h: int)
    | KeepLast(f: int, h: int)

  datatype Outcome = Disabled | Panic | Ok(s: State)

  /** Holder h is using frame f and is not in the middle of dropping it. */
  predicate Holds(s: State, f: int, h: int) {
    f in s.holders && h in s.holders[f] && (f, h) !in s.pending && 0 <= f < |s.m.refs|
  }

  function Next(s: State, e: Event): Outcome {
    match e
    case Allocate(h) =>
      if s.m.free == [] then Ok(s)
      else if !(0 <= s.m.free[0] < |s.m.refs|) then Disabled
      else Ok(s.(m := Alloc(s.m), holders := s.holders[s.m.free[0] := {h}]))
    case Share(f, h, other) =>
      if !Holds(s, f, h) || other in s.holders[f] then Disabled
      else Ok(s.(m := Inc(s.m, f), holders := s.holders[f := s.holders[f] + {other}]))
    case Decrement(f, h) =>
      if !Holds(s, f, h) then Disabled
      else if s.m.refs[f] == 1 then Ok(s.(m := Dec(s.m, f), pending := s.pending + {(f, h)}))
      else Ok(s.(m := Dec(s.m, f), holders := s.holders[f := s.holders[f] - {h}]))
    case FreeLast(f, h) =>
      if (f, h) !in s.pending || !(0 <= f < |s.m.refs|) then Disabled
      else if s.m.refs[f] != 1 then Panic
      else Ok(s.(m := Free(s.m, f), holders := s.holders[f := {}], pending := s.pending - {(f, h)}))
    case KeepLast(f, h) =>
      if (f, h) !in s.pending then Disabled
      else Ok(s.(pending := s.pending - {(f, h)}))
  }

  /** Each count is the number of holders, and whoever saw the count 1 is the only one. */
  predicate Inv(s: State, managed: set<int>) {
    && FramesOk(s.m, managed) && s.holders.Keys == managed
    && (forall f :: f in managed ==> s.m.refs[f] == |s.holders[f]|)
    && (forall p :: p in s.pending ==> p.0 in managed && s.holders[p.0] == {p.1})
  }

  function Start(m: Frames, managed: set<int>): State {
    State(m, map f | f in managed :: {}, {})
  }

  function Run(s: State, es: seq<Event>): Outcome
    decreases |es|
  {
    if es == [] then Ok(s)
    else
      var o := Run(s, es[..|es| - 1]);
      if o.Ok? then Next(o.s, es[|es| - 1]) else o
  }

  lemma AllocateInv(s: State, managed: set<int>, h: int)
    requires Inv(s, managed)
    ensures Next(s, Allocate(h)).Ok? && Inv(Next(s, Allocate(h)).s, managed)
  {
    if s.m.free != [] {
      var f := s.m.free[0];
      AllocOk(s.m, managed);
      assert s.holders[f] == {};
    }
  }

  lemma ShareInv(s: State, managed: set<int>, e: Event)
    requires Inv(s, managed) && e.Share? && Next(s, e).Ok?
    ensures Inv(Next(s, e).s, managed)
  {
    assert s.holders[e.f] != {};
  }

  lemma DecrementInv(s: State, managed: set<int>, e: Event)
    requires Inv(s, managed) && e.Decrement? && Next(s, e).Ok?
    ensures Inv(Next(s, e).s, managed)
  {
    var hs := s.holders[e.f];
    assert |hs - {e.h}| == |hs| - 1;
    if s.m.refs[e.f] == 1 {
      assert hs - {e.h} == {};
    }
  }

  lemma FreeLastInv(s: State, managed: set<int>, e: Event)
    requires Inv(s, managed) && e.FreeLast?
    ensures Next(s, e) != Panic
    ensures Next(s, e).Ok? ==> Inv(Next(s, e).s, managed)
  {
    if (e.f, e.h) in s.pending {
      FreeOk(s.m, managed, e.f);
    }
  }

  lemma StepInv(s: State, managed: set<int>, e: Event)
    requires Inv(s, managed)
    ensures Next(s, e) != Panic
    ensures Next(s, e).Ok? ==> Inv(Next(s, e).s, managed)
  {
    if Next(s, e).Ok? {
      match e
      case Allocate(h) => AllocateInv(s, managed, h);
      case Share(_, _, _) => ShareInv(s, managed, e);
      case Decrement(_, _) => DecrementInv(s, managed, e);
      case FreeLast(_, _) => FreeLastInv(s, managed, e);
      case KeepLast(_, _) =>
    } else if e.FreeLast? {
      FreeLastInv(s, managed, e);
    }
  }

  /** In every run the panic "kfree: ref" never happens, each count equals the number
      of holders, the free list is exactly the frames without holders, and free plus
      occupied frames stay constant. */
  lemma {:induction false} LifetimeRuns(m: Frames, managed: set<int>, es: seq<Event>)
    requires FramesOk(m, managed) && AllZero(m.refs)
    ensures Run(Start(m, managed), es) != Panic
    ensures Run(Start(m, managed), es).Ok? ==> Inv(Run(Start(m, managed), es).s, managed)
    decreases |es|
  {
    if es == [] {
    } else {
      LifetimeRuns(m, managed, es[..|es| - 1]);
      var o := Run(Start(m, managed), es[..|es| - 1]);
      if o.Ok? {
        StepInv(o.s, managed, es[|es| - 1]);
      }
    }
  }

  /** Two droppers of one frame can never both be past the count-of-1 test. */
  lemma OneLastDropper(m: Frames, managed: set<int>, es: seq<Event>, f: int, h1: int, h2: int)
    requires FramesOk(m, managed) && AllZero(m.refs)
    requires Run(Start(m, managed), es).Ok?
    requires (f, h1) in Run(Start(m, managed), es).s.pending && (f, h2) in Run(Start(m, managed), es).s.pending
    ensures h1 == h2
  {
    LifetimeRuns(m, managed, es);
    var s := Run(Start(m, managed), es).s;
    assert s.holders[(f, h1).0] == {h1} && s.holders[(f, h2).0] == {h2};
  }

  /** What each step is for: a new holder, another holder, one holder less, a frame on the
      free list. */
  lemma Effects(s: State, managed: set<int>, e: Event)
    requires Inv(s, managed) && Next(s, e).Ok?
    ensures var s' := Next(s, e).s;
      match e
      case Allocate(h) =>
        if s.m.free == [] then s' == s
        else exists f :: f in managed && s.holders[f] == {} && s'.holders == s.holders[f := {h}] && f !in s'.m.free
      case Share(f, h, other) => f in managed && s'.holders == s.holders[f := s.holders[f] + {other}]
      case Decrement(f, h) =>
        f in managed && if s.holders[f] == {h} then s'.holders == s.holders && (f, h) in s'.pending
                        else s'.holders == s.holders[f := s.holders[f] - {h}] && s'.pending == s.pending
      case FreeLast(f, h) => f in managed && s'.holders == s.holders[f := {}] && f in s'.m.free
      case KeepLast(f, h) => s'.holders == s.holders && Holds(s', f, h)
  {
    match e
    case Allocate(h) =>
      if s.m.free != [] {
        var f := s.m.free[0];
        assert f in managed && s.holders[f] == {};
        assert f !in s.m.free[1..];
      }
    case Decrement(f, h) =>
      if s.m.refs[f] == 1 {
        assert |s.holders[f] - {h}| == 0;
      }
    case _ =>
  }

  lemma RunMore(s: State, es: seq<Event>, e: Event)
    requires Run(s, es).Ok?
    ensures Run(s, es + [e]) == Next(Run(s, es).s, e)
    ensures es == [] ==> es + [e] == [e]
  {
    assert (es + [e])[..|es|] == es;
  }

  lemma {:induction false} RunTwice(s: State, a: seq<Event>, b: seq<Event>)
    requires Run(s, a).Ok?
    ensures Run(s, a + b) == Run(Run(s, a).s, b)
    decreases |b|
  {
    hide Next;
    if b == [] {
      assert a + b == a;
    } else {
      assert (a + b)[..|a + b| - 1] == a + b[..|b| - 1];
      RunTwice(s, a, b[..|b| - 1]);
    }
  }

  /** Holder h's drop of frame f, from the count on. */
  lemma DropOne(s: State, managed: set<int>, f: int, h: int) returns (es: seq<Event>)
    requires Inv(s, managed) && f in managed && h in s.holders[f]
    ensures Run(s, es).Ok? && Inv(Run(s, es).s, managed)
    ensures Run(s, es).s.holders == s.holders[f := s.holders[f] - {h}]
  {
    hide Run, Inv, Next;
    Present(s, managed, f, h);
    RunNone(s);
    assert {h} - {h} == {};
    if (f, h) in s.pending {
      es := [FreeLast(f, h)];
      StepInv(s, managed, es[0]);
      Effects(s, managed, es[0]);
      RunMore(s, [], es[0]);
    } else {
      var d := Decrement(f, h);
      StepInv(s, managed, d);
      Effects(s, managed, d);
      RunMore(s, [], d);
      es := [d];
      if s.holders[f] == {h} {
        var s1 := Next(s, d).s;
        Present(s1, managed, f, h);
        StepInv(s1, managed, FreeLast(f, h));
        Effects(s1, managed, FreeLast(f, h));
        RunMore(s, [d], FreeLast(f, h));
        es := [d] + [FreeLast(f, h)];
      }
    }
  }

  lemma Present(s: State, managed: set<int>, f: int, h: int)
    requires Inv(s, managed) && f in managed && h in s.holders[f]
    ensures s.holders.Keys == managed
    ensures (f, h) in s.pending ==> s.holders[f] == {h} && Next(s, FreeLast(f, h)).Ok?
    ensures (f, h) !in s.pending ==> Next(s, Decrement(f, h)).Ok?
  {
    if (f, h) in s.pending {
      assert (f, h).0 == f && (f, h).1 == h;
    }
  }

  lemma RunNone(s: State)
    ensures Run(s, []) == Ok(s)
  {
  }

  /** The references there are. */
  function References(holders: map<int, set<int>>): set<(int, int)> {
    set f, h | f in holders && h in holders[f] :: (f, h)
  }

  /** No frame leaks: from every reachable state the holders can drop their references so
      that every frame is on the free list again. */
  lemma {:induction false} AllFreed(s: State, managed: set<int>) returns (es: seq<Event>)
    requires Inv(s, managed)
    ensures Run(s, es).Ok? && forall f :: f in managed ==> f in Run(s, es).s.m.free
    decreases |References(s.holders)|
  {
    hide Run, Next;
    if References(s.holders) != {} {
      var r :| r in References(s.holders);
      var f, h := r.0, r.1;
      var a := DropOne(s, managed, f, h);
      var t := Run(s, a).s;
      FewerReferences(s.holders, f, h);
      var b := AllFreed(t, managed);
      RunTwice(s, a, b);
      es := a + b;
    } else {
      es := [];
      RunNone(s);
      forall f | f in managed ensures f in s.m.free {
        assert forall h :: h in s.holders[f] ==> (f, h) in References(s.holders);
        assert s.holders[f] == {};
      }
    }
  }

  lemma FewerReferences(holders: map<int, set<int>>, f: int, h: int)
    requires f in holders && h in holders[f]
    ensures |References(holders[f := holders[f] - {h}])| < |References(holders)|
  {
    assert References(holders[f := holders[f] - {h}]) == References(holders) - {(f, h)};
    assert (f, h) in References(holders);
  }
}
