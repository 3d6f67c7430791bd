/** On heaps without link cycles reference counting alone reclaims everything: nothing is ever swept,
    and a cell that is handed out again is always unreferenced. */
module Acyclic {
  import opened Asserts
  import opened Sums
  import opened GcState
  import opened Collector
  import opened Safety
  import opened Mutator
  import opened Runs

  ghost predicate LivePath(cells: seq<Cell>, p: seq<nat>) {
    IsPath(cells, p) && forall i :: 0 <= i < |p| ==> !cells[p[i]].place.Free?
  }

  /** No path over non-free cells comes back to where it started. */
  ghost predicate NoCycle(cells: seq<Cell>) {
    forall p :: LivePath(cells, p) && |p| > 1 ==> p[0] != p[|p| - 1]
  }

  // ----- a long path meets itself

  lemma LongPathCycles(cells: seq<Cell>, p: seq<nat>)
    requires LivePath(cells, p) && |p| > |cells|
    ensures !NoCycle(cells)
  {
    var i, j := Repeats(p, |cells|);
    var q := p[i..j + 1];
    assert forall x :: 0 <= x < |q| ==> q[x] == p[i + x];
    forall x | 0 <= x < |q| - 1 ensures Edge(cells, q[x], q[x + 1]) {
      assert Edge(cells, p[i + x], p[i + x + 1]);
    }
    assert LivePath(cells, q);
  }

  // ----- an unprocessed cell at sweep time sits on a cycle

  lemma UnprocHasUnprocSource(s: State, k: set<nat>, c: nat) returns (d: nat)
    requires Inv(s, k, multiset{}) && Is(s, c, Unproc)
    requires NoneOn(s, FreePending) && NoneOn(s, Boundary) && NoneOn(s, RootTodo)
    ensures Is(s, d, Unproc) && Edge(s.cells, d, c)
  {
    d := InDegreeHasSource(s.cells, c);
    assert Edge(s.cells, d, c);
    assert !Done(s.cells[d].place);
  }

  lemma {:induction false} UnprocPath(s: State, k: set<nat>, c: nat, n: nat) returns (p: seq<nat>)
    requires Inv(s, k, multiset{}) && Is(s, c, Unproc)
    requires NoneOn(s, FreePending) && NoneOn(s, Boundary) && NoneOn(s, RootTodo)
    ensures LivePath(s.cells, p) && |p| == n + 1 && p[n] == c
    decreases n
  {
    if n == 0 {
      p := [c];
    } else {
      var d := UnprocHasUnprocSource(s, k, c);
      p := UnprocPath(s, k, d, n - 1);
      p := p + [c];
    }
  }

  lemma NothingToSweep(s: State, ph: Phase)
    requires Safe(s) && NoCycle(s.cells) && Enabled(s, ph)
    ensures !ph.Sweep?
  {
    if ph.Sweep? {
      var k :| Inv(s, k, multiset{});
      var p := UnprocPath(s, k, ph.c, |s.cells|);
      LongPathCycles(s.cells, p);
    }
  }

  // ----- free cells stay unreferenced as long as nothing is swept

  ghost predicate FreeUnreferenced(s: State) {
    forall c :: 0 <= c < |s.cells| && s.cells[c].place.Free? ==> s.cells[c].refcount == 0
  }

  /** Only the sweep can free a referenced cell. */
  lemma CollectKeepsFreeUnreferenced(s: State, ph: Phase)
    requires Safe(s) && Enabled(s, ph) && !ph.Sweep? && FreeUnreferenced(s)
    ensures FreeUnreferenced(Collect(s, ph))
  {
    hide Safe;
    SafeInRange(s);
    CollectPlaces(s, ph);
    if ph.FreeOne? {
      FreeAsserts(s, ph);
      FreeCellDoes(s, ph.c);
    } else if ph.ScanBoundary? || ph.ScanRoot? {
      ScanDoes(s, ph.c, if ph.ScanBoundary? then Reachable else RootDone);
    }
  }

  lemma PatchLeavesFreeAlone(s: State, k: set<nat>, src: nat, slot: nat, target: Link, c: nat)
    requires Inv(s, k, multiset{}) && src in k && slot < |s.cells[src].links|
    requires InRange(s, target) && (target.To? ==> target.id in k)
    requires c < |s.cells| && s.cells[c].place.Free?
    ensures InRange(s, s.cells[src].links[slot]) && Patch(s, src, slot, target).cells[c] == s.cells[c]
  {
    var was := s.cells[src].links[slot];
    assert AllInRange(s, s.cells[src].links);
    assert c !in k;
    if was.To? {
      assert Edge(s.cells, src, was.id) && was.id in k;
    }
  }

  /** The program's own operations leave free cells alone: it only ever uses what it reaches. */
  lemma ProgramLeavesFreeAlone(s: State, op: Op, c: nat)
    requires Safe(s) && Allowed(s, op) && !op.OpCollect? && ReuseClean(s, op)
    requires c < |s.cells| && s.cells[c].place.Free?
    ensures Apply(s, op).cells[c] == s.cells[c] || (op.OpNew? && op.f == c && Apply(s, op).cells[c].place.IsRoot())
  {
    hide Reached;
    var k :| Inv(s, k, multiset{});
    match op
    case OpNew(f, links) =>
      LinksLive(s, k, links);
      assert To(c) !in links;
      NewLinksDo(Request(s, f), links);
    case OpPatch(src, slot, target) =>
      ReachedIsLive(s, k, src);
      if target.To? {
        ReachedIsLive(s, k, target.id);
      }
      hide Inv, Patch;
      PatchLeavesFreeAlone(s, k, src, slot, target, c);
    case OpLock(d) =>
      ReachedIsLive(s, k, d);
    case OpUnlock(d) =>
  }

  lemma ProgramFreesNothing(s: State, op: Op, c: nat)
    requires Safe(s) && Allowed(s, op) && !op.OpCollect? && c < |Apply(s, op).cells|
    ensures Is(Apply(s, op), c, Free) ==> Is(s, c, Free)
  {
    hide Safe, Reached;
    match op
    case OpNew(f, links) =>
      NewLinkAllEffect(Request(s, f), links);
    case _ =>
  }

  // ----- runs that discharge the reuse check by themselves

  /** A cell has been swept and the cycle has not ended since. */
  predicate MidSweep(run: Run) {
    match run
    case Start => false
    case Then(before, op, _) =>
      if op.OpCollect? && op.ph.Sweep? then true
      else if op.OpCollect? && op.ph.Swap? then false
      else MidSweep(before)
  }

  predicate AllocatesBetweenSweeps(run: Run) {
    match run
    case Start => true
    case Then(before, op, _) => AllocatesBetweenSweeps(before) && !(op.OpNew? && MidSweep(before))
  }

  /** A program that does not allocate half way through a sweep needs no check on reuse. */
  lemma {:induction false} AllocationBetweenSweeps(run: Run)
    requires IsRun(run) && AllocatesBetweenSweeps(run)
    ensures ReusesCleanly(run) && Safe(Last(run))
    ensures MidSweep(run) || FreeUnreferenced(Last(run))
  {
    match run
    case Start =>
      EmptyIsSafe();
    case Then(before, op, t) =>
      AllocationBetweenSweeps(before);
      var s := Last(before);
      ApplyKeeps(s, op);
      if !MidSweep(run) {
        if op.OpCollect? && op.ph.Swap? {
          CycleEndsClean(s);
        } else if op.OpCollect? {
          CollectKeepsFreeUnreferenced(s, op.ph);
        } else {
          ProgramKeepsFreeUnreferenced(s, op);
        }
      }
  }

  lemma ProgramKeepsFreeUnreferenced(s: State, op: Op)
    requires Safe(s) && Allowed(s, op) && !op.OpCollect? && FreeUnreferenced(s)
    ensures FreeUnreferenced(Apply(s, op))
  {
    var t := Apply(s, op);
    forall c | 0 <= c < |t.cells| && t.cells[c].place.Free? ensures t.cells[c].refcount == 0 {
      ProgramFreesNothing(s, op, c);
      ProgramLeavesFreeAlone(s, op, c);
    }
  }

  /** When a cycle ends, only the slots of free cells, which are not cleared, may lead to a free cell; no free cell
      is referenced, and every other cell is a root to process or unprocessed. */
  lemma CycleEndsClean(s: State)
    requires Safe(s) && Enabled(s, Swap)
    ensures FreeUnreferenced(Collect(s, Swap))
    ensures forall a: nat, b: nat ::
      Edge(s.cells, a, b) && Is(Collect(s, Swap), b, Free) ==> Is(Collect(s, Swap), a, Free)
    ensures forall c :: 0 <= c < |s.cells| ==> Collect(s, Swap).cells[c].place in {Free, RootTodo, Unproc}
  {
    var k :| Inv(s, k, multiset{});
    FreeAreClean(s, k);
  }

  /** Two free cells, the first of which still holds a link to the second. */
  const DANGLING := State([Cell(Free, false, 0, [To(1)]), Cell(Free, false, 0, [Null])], 0)

  lemma DanglingExact()
    ensures Exact(DANGLING.cells, multiset{})
  {
    forall t | 0 <= t < 2 ensures InDegree(DANGLING.cells, t) == 0 {
      SumScaled(DANGLING.cells, Into(t), Into(t), 0);
    }
  }

  /** Such slots do lead to free cells, in a safe heap at the end of a cycle. */
  lemma FreeSlotsDangle()
    ensures Safe(DANGLING) && Enabled(DANGLING, Swap) && Edge(DANGLING.cells, 0, 1)
    ensures Is(Collect(DANGLING, Swap), 0, Free) && Is(Collect(DANGLING, Swap), 1, Free)
  {
    DanglingExact();
    hide Exact;
    assert Inv(DANGLING, {}, multiset{});
  }

  // ----- whole acyclic runs

  ghost predicate AlwaysAcyclic(run: Run) {
    && NoCycle(Last(run).cells)
    && (run.Then? ==> AlwaysAcyclic(run.run))
  }

  predicate NeverSweeps(run: Run) {
    match run
    case Start => true
    case Then(before, op, _) => NeverSweeps(before) && !(op.OpCollect? && op.ph.Sweep?)
  }

  lemma {:induction false} NoSweepNoMidSweep(run: Run)
    requires NeverSweeps(run)
    ensures !MidSweep(run) && AllocatesBetweenSweeps(run)
  {
    if run.Then? {
      NoSweepNoMidSweep(run.run);
    }
  }

  /** Acyclic runs are safe without any assumption about reuse: they never sweep and always reuse cleanly. */
  lemma {:induction false} AcyclicRun(run: Run)
    requires IsRun(run) && AlwaysAcyclic(run)
    ensures NeverSweeps(run) && ReusesCleanly(run) && Safe(Last(run)) && FreeUnreferenced(Last(run))
  {
    if run.Then? {
      AcyclicRun(run.run);
      if run.op.OpCollect? {
        NothingToSweep(Last(run.run), run.op.ph);
      }
    }
    NoSweepNoMidSweep(run);
    AllocationBetweenSweeps(run);
  }
}
