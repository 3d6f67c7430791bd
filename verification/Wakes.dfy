/** When the collector sleeps: what the program does wakes it up whenever that makes garbage, and then two cycles
    are enough. */
module Wakes {
  import opened GcState
  import opened Collector
  import opened Safety
  import opened Runs
  import opened Cycles

  // ----- the operations of the program, cell by cell

  /** A cell that is locked is a root from then on; one that is a root already stays where it is. */
  lemma LockDoes(s: State, c: nat)
    requires c < |s.cells|
    ensures var x := s.cells[c];
      Lock(s, c)
        == State(s.cells[c := Cell(if x.place.RootDone? then RootDone else RootTodo, true, x.refcount, x.links)],
                 s.cleanCycles)
  {
  }

  /** A cell that is given up goes to the boundary if something links to it, and awaits freeing otherwise. In both
      cases the collector has work. */
  lemma UnlockDoes(s: State, c: nat)
    requires c < |s.cells|
    ensures var x := s.cells[c];
      Unlock(s, c) == State(s.cells[c := Cell(if x.refcount == 0 then FreePending else Boundary, false, x.refcount,
                                              x.links)], 0)
  {
  }

  /** Overwriting a slot: the new target counts one link more, the old one less, the slot holds the new link. */
  lemma PatchDoes(s: State, c: nat, i: nat, l: Link)
    requires c < |s.cells| && i < |s.cells[c].links| && InRange(s, l) && InRange(s, s.cells[c].links[i])
    ensures var t, o := Patch(s, c, i, l), s.cells[c].links[i];
      && |t.cells| == |s.cells| && t.cleanCycles == (if o.To? then 0 else s.cleanCycles)
      && forall x :: 0 <= x < |s.cells| ==>
           && t.cells[x].links == (if x == c then s.cells[c].links[i := l] else s.cells[x].links)
           && t.cells[x].locked == s.cells[x].locked
           && t.cells[x].refcount
              == Monus(s.cells[x].refcount + (if l == To(x) then 1 else 0), if o == To(x) then 1 else 0)
  {
  }

  // ----- garbage that the program makes

  /** What was reached is still reached if no root and no link among the live cells was lost. */
  lemma ReachCarries(s: State, t: State, k: set<nat>, x: nat)
    requires LiveSet(s.cells, k) && Reached(s, x)
    requires forall a :: a in k ==> a < |t.cells| && (IsRoot(s, a) ==> IsRoot(t, a))
    requires forall a: nat, b: nat :: a in k && b in k && Edge(s.cells, a, b) ==> Edge(t.cells, a, b)
    ensures Reached(t, x)
  {
    var p: seq<nat>, r: nat :| IsRoot(s, r) && PathFromTo(s.cells, p, r, x);
    assert r in k;
    PathInLive(s.cells, k, p);
    assert IsPath(t.cells, p) by {
      assert forall i :: 0 <= i < |p| - 1 ==> Edge(s.cells, p[i], p[i + 1]);
    }
    assert PathFromTo(t.cells, p, r, x);
  }

  lemma {:induction false} PathInLive(cells: seq<Cell>, k: set<nat>, p: seq<nat>)
    requires LiveSet(cells, k) && IsPath(cells, p) && p[0] in k
    ensures forall i :: 0 <= i < |p| ==> p[i] in k
  {
    if |p| > 1 {
      var q := p[1..];
      assert Edge(cells, p[0], p[1]);
      assert forall i :: 0 <= i < |q| ==> q[i] == p[i + 1];
      PathInLive(cells, k, q);
      assert forall i :: 1 <= i < |p| ==> p[i] == q[i - 1];
    }
  }

  lemma NewKeepsReached(s: State, f: nat, ls: seq<Link>, x: nat)
    requires Safe(s) && Allowed(s, OpNew(f, ls)) && Reached(s, x)
    ensures Reached(Apply(s, OpNew(f, ls)), x)
  {
    var k :| Inv(s, k, multiset{});
    LinksLive(s, k, ls);
    NewSpares(s, k, f, ls);
    hide NewNode, Reached, Inv, LinkReached;
    ReachCarries(s, NewNode(s, f, ls), k, x);
  }

  lemma NewSpares(s: State, k: set<nat>, f: nat, ls: seq<Link>)
    requires LiveSet(s.cells, k) && AllLive(k, ls) && Available(s, f) && AllInRange(s, ls)
    ensures var t := NewNode(s, f, ls);
      && (forall a :: a in k ==> a < |t.cells| && (IsRoot(s, a) ==> IsRoot(t, a)))
      && forall a: nat, b: nat :: a in k && b in k && Edge(s.cells, a, b) ==> Edge(t.cells, a, b)
  {
    assert f !in k && To(f) !in ls;
    NewNodeDoes(s, f, ls);
    hide NewNode;
  }

  lemma PatchKeepsReached(s: State, c: nat, i: nat, l: Link, x: nat)
    requires Safe(s) && Allowed(s, OpPatch(c, i, l)) && Reached(s, x) && s.cells[c].links[i].Null?
    ensures Reached(Apply(s, OpPatch(c, i, l)), x)
  {
    var k :| Inv(s, k, multiset{});
    PatchSpares(s, k, c, i, l);
    hide Patch, Reached, Inv, LinkReached;
    ReachCarries(s, Patch(s, c, i, l), k, x);
  }

  lemma PatchSpares(s: State, k: set<nat>, c: nat, i: nat, l: Link)
    requires LiveSet(s.cells, k) && c < |s.cells| && i < |s.cells[c].links| && InRange(s, l)
    requires s.cells[c].links[i].Null?
    ensures var t := Patch(s, c, i, l);
      && (forall a :: a in k ==> a < |t.cells| && (IsRoot(s, a) ==> IsRoot(t, a)))
      && forall a: nat, b: nat :: a in k && b in k && Edge(s.cells, a, b) ==> Edge(t.cells, a, b)
  {
    var t := Patch(s, c, i, l);
    var ls := s.cells[c].links;
    assert t.cells[c].links == ls[i := l];
    forall b: nat | Edge(s.cells, c, b)
      ensures Edge(t.cells, c, b)
    {
      var j :| 0 <= j < |ls| && ls[j] == To(b);
      assert ls[i := l][j] == To(b);
    }
  }

  lemma LockKeepsReached(s: State, c: nat, x: nat)
    requires Safe(s) && Allowed(s, OpLock(c)) && Reached(s, x)
    ensures Reached(Apply(s, OpLock(c)), x)
  {
    var k :| Inv(s, k, multiset{});
    ReachCarries(s, Lock(s, c), k, x);
  }

  /** An operation of the program that takes a cell out of the roots' reach leaves the collector awake. */
  lemma GarbageWakes(s: State, op: Op, x: nat)
    requires Safe(s) && Allowed(s, op) && !op.OpCollect? && Reached(s, x) && !Reached(Apply(s, op), x)
    ensures (op.OpPatch? || op.OpUnlock?) && Apply(s, op).cleanCycles == 0
  {
    hide Safe, Reached;
    match op {
      case OpNew(f, ls) => NewKeepsReached(s, f, ls, x);
      case OpPatch(c, i, l) =>
        PatchDoes(s, c, i, l);
        if s.cells[c].links[i].Null? {
          PatchKeepsReached(s, c, i, l, x);
        }
      case OpLock(c) => LockKeepsReached(s, c, x);
      case OpUnlock(c) => UnlockDoes(s, c);
    }
  }

  /** So two cycles free it, however long the collector had been asleep. */
  lemma MadeGarbageIsFreed(s: State, op: Op, one: Trace, two: Trace, x: nat)
    requires Safe(s) && Allowed(s, op) && !op.OpCollect? && Reached(s, x) && !Reached(Apply(s, op), x)
    requires IsCycle(one) && IsCycle(two) && one.First() == Apply(s, op) && two.First() == one.Last()
    ensures Is(two.Last(), x, Free)
  {
    SafeProtectsReached(s, x);
    GarbageWakes(s, op, x);
    ApplyKeeps(s, op);
    SizeKept(s, op);
    hide IsCycle, Safe, Reached, Allowed, Apply;
    TwoCyclesBounds(one, two, x);
  }

  lemma SizeKept(s: State, op: Op)
    requires Allowed(s, op) && (op.OpPatch? || op.OpUnlock?)
    ensures |Apply(s, op).cells| == |s.cells|
  {
  }

  /** Giving up a root: what two cycles leave was reached from the roots that there are then. */
  lemma UnlockThenCycles(s: State, c: nat, one: Trace, two: Trace, x: nat)
    requires Safe(s) && IsRoot(s, c) && LinksInRange(s)
    requires IsCycle(one) && IsCycle(two) && one.First() == Unlock(s, c) && two.First() == one.Last()
    requires x < |two.Last().cells| && !Is(two.Last(), x, Free)
    ensures Reached(one.First(), x)
  {
    ApplyKeeps(s, OpUnlock(c));
    UnlockDoes(s, c);
    CycleIsQuiet(one);
    CycleIsQuiet(two);
    hide IsCycle, Safe, Reached;
    TwoCyclesBounds(one, two, x);
  }

  /** What giving up a cell comes to: only roots are unlocked. */
  function GivenUp(s: State, c: nat): State
    requires c < |s.cells|
  {
    if IsRoot(s, c) then Unlock(s, c) else s
  }

  /** The step right behind it is never the end of a cycle, so the collector stays awake. */
  lemma UnlockKeepsAwake(s: State, c: nat, ph: Phase, t: State)
    requires IsRoot(s, c) && IsStep(Unlock(s, c), ph, t)
    ensures !ph.Final() && t.cleanCycles == 0
  {
    UnlockDoes(s, c);
    var u := Unlock(s, c);
    assert Is(u, c, FreePending) || Is(u, c, Boundary);
    StepKeepsClean(u, ph);
  }

  lemma LastRootGone(s: State, c: nat, ph: Phase, t: State)
    requires IsRoot(s, c) && (forall x: nat :: IsRoot(s, x) ==> x == c) && IsStep(Unlock(s, c), ph, t)
    ensures NoneOn(t, RootTodo) && NoneOn(t, RootDone)
  {
    UnlockDoes(s, c);
    var u := Unlock(s, c);
    StepMakesNoRoots(u, ph);
    forall x: nat | x < |t.cells|
      ensures t.cells[x].place != RootTodo && t.cells[x].place != RootDone
    {
      if IsRoot(t, x) {
        assert IsRoot(u, x) && IsRoot(s, x);
      }
    }
  }

  // ----- nothing is pending when the collector is asleep

  /** When two clean cycles have suspended the collector, nothing awaits freeing, and only the program has
      marked cells since. */
  predicate Settled(s: State) {
    s.cleanCycles == 2 ==>
      forall c :: 0 <= c < |s.cells| ==> s.cells[c].place in {Free, RootTodo, Boundary, Unproc}
  }

  lemma SettledAfter(s: State, op: Op)
    requires Allowed(s, op) && Settled(s) && s.cleanCycles <= 2
    ensures Settled(Apply(s, op)) && Apply(s, op).cleanCycles <= 2
  {
    match op {
      case OpNew(f, ls) => NewLinksDo(Request(s, f), ls);
      case OpPatch(c, i, l) => PatchDoes(s, c, i, l);
      case OpLock(c) =>
      case OpUnlock(c) =>
      case OpCollect(ph) =>
        if !ph.Final() {
          StepKeepsClean(s, ph);
        }
    }
  }

  /** In every run: the collector only sleeps when nothing awaits freeing. */
  lemma {:induction false} SleepsWithoutPending(run: Run)
    requires IsRun(run)
    ensures Settled(Last(run)) && Last(run).cleanCycles <= 2
    ensures Last(run).cleanCycles == 2 ==> NoneOn(Last(run), FreePending)
  {
    if run.Then? {
      SleepsWithoutPending(run.run);
      SettledAfter(Last(run.run), run.op);
    }
  }

  // ----- garbage that the collector makes

  /** A cycle of a suspended collector changes nothing. */
  lemma {:induction false} AsleepStays(tr: Trace)
    requires IsCycle(tr) && tr.First().cleanCycles == 2
    ensures tr.Last() == tr.First()
  {
    if tr.before.More? {
      NotUnderway(tr.before);
    }
  }

  lemma {:induction false} NotUnderway(tr: Trace)
    requires Underway(tr) && tr.First().cleanCycles == 2
    ensures tr.Begin?
  {
    if tr.More? {
      NotUnderway(tr.before);
    }
  }

  function C(p: Place, count: nat, l: Link): Cell {
    Cell(p, false, count, [l])
  }

  /** Two nodes that link to each other take each other off the roots, which does not count as a change. */
  const W1 := State([], 1)
  const W2 := State([C(RootTodo, 0, Null)], 1)
  const W3 := State([C(RootDone, 0, Null)], 1)
  const W4 := State([C(RootDone, 1, Null), C(RootTodo, 0, To(0))], 1)
  const W5 := State([C(Boundary, 1, Null), C(RootDone, 0, To(0))], 1)
  const W6 := State([C(Boundary, 1, To(1)), C(RootDone, 1, To(0))], 1)
  const W7 := State([C(Reachable, 1, To(1)), C(Boundary, 1, To(0))], 1)
  const W8 := State([C(Reachable, 1, To(1)), C(Reachable, 1, To(0))], 1)
  const W9 := State([C(Unproc, 1, To(1)), C(Unproc, 1, To(0))], 2)

  lemma Extend(run: Run, s: State, op: Op, t: State) returns (next: Run)
    requires IsRun(run) && Interleaved(run) && ReusesCleanly(run) && Last(run) == s
    requires Allowed(s, op) && ReuseClean(s, op) && Apply(s, op) == t
    requires op.OpCollect? || run.Start? || run.op.OpCollect?
    ensures IsRun(next) && Interleaved(next) && ReusesCleanly(next) && Last(next) == t && next.Then? && next.op == op
  {
    next := Then(run, op, t);
  }

  lemma FirstNode()
    ensures Allowed(EMPTY, OpCollect(Swap)) && Apply(EMPTY, OpCollect(Swap)) == W1
    ensures Allowed(W1, OpNew(0, [Null])) && Apply(W1, OpNew(0, [Null])) == W2
    ensures Allowed(W2, OpCollect(ScanRoot(0))) && Apply(W2, OpCollect(ScanRoot(0))) == W3
  {
  }

  lemma SecondNode()
    ensures Allowed(W3, OpNew(1, [To(0)])) && Apply(W3, OpNew(1, [To(0)])) == W4
    ensures Allowed(W4, OpCollect(ScanRoot(1))) && Apply(W4, OpCollect(ScanRoot(1))) == W5
  {
    RootReached(W3, 0);
    TryMovesDo(W4, [To(0)]);
  }

  lemma Linked()
    ensures Allowed(W5, OpPatch(0, 0, To(1))) && Apply(W5, OpPatch(0, 0, To(1))) == W6
  {
    RootReached(W5, 1);
    FollowLink(W5, 1, 0);
    assert [Null][0 := To(1)] == [To(1)];
  }

  lemma TraceFirst()
    ensures Allowed(W6, OpCollect(ScanBoundary(0))) && Apply(W6, OpCollect(ScanBoundary(0))) == W7
  {
    TryMovesDo(W6, [To(1)]);
  }

  lemma TraceSecond()
    ensures Allowed(W7, OpCollect(ScanBoundary(1))) && Apply(W7, OpCollect(ScanBoundary(1))) == W8
    ensures Allowed(W8, OpCollect(Swap)) && Apply(W8, OpCollect(Swap)) == W9
  {
    TryMovesDo(W7, [To(0)]);
  }

  /** A run, with a collector step behind every operation, after which the collector sleeps although two cells
      are neither free nor reached from a root; no cycle frees them until the program wakes the collector up. */
  lemma SleepsOnGarbage() returns (run: Run)
    ensures IsRun(run) && Interleaved(run) && ReusesCleanly(run) && Last(run).cleanCycles == 2
    ensures forall c: nat :: c < 2 ==> !Reached(Last(run), c) && !Is(Last(run), c, Free)
    ensures forall tr :: IsCycle(tr) && tr.First() == Last(run) ==> tr.Last() == Last(run)
  {
    FirstNode();
    SecondNode();
    Linked();
    TraceFirst();
    TraceSecond();
    hide Allowed, Apply, IsRun, ReusesCleanly, Interleaved, IsCycle;
    run := StartRun();
    run := Extend(run, EMPTY, OpCollect(Swap), W1);
    run := Extend(run, W1, OpNew(0, [Null]), W2);
    run := Extend(run, W2, OpCollect(ScanRoot(0)), W3);
    run := Extend(run, W3, OpNew(1, [To(0)]), W4);
    run := Extend(run, W4, OpCollect(ScanRoot(1)), W5);
    run := Extend(run, W5, OpPatch(0, 0, To(1)), W6);
    run := Extend(run, W6, OpCollect(ScanBoundary(0)), W7);
    run := Extend(run, W7, OpCollect(ScanBoundary(1)), W8);
    run := Extend(run, W8, OpCollect(Swap), W9);
    forall c: nat | c < 2
      ensures !Reached(W9, c)
    {
      NoRootsReachNothing(W9, c);
    }
    forall tr | IsCycle(tr) && tr.First() == W9
      ensures tr.Last() == W9
    {
      AsleepStays(tr);
    }
  }

  lemma StartRun() returns (run: Run)
    ensures IsRun(run) && Interleaved(run) && ReusesCleanly(run) && Last(run) == EMPTY && run.Start?
  {
    run := Start;
  }
}
