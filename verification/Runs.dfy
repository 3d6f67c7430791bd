/** Safety of the collector over every run: any interleaving of mutator operations and collector steps. */
module Runs {
  import opened GcState
  import opened Collector
  import opened Safety
  import opened Mutator

  lemma SafeInRange(s: State)
    requires Safe(s)
    ensures LinksInRange(s)
  {
  }

  // ----- one collector step

  lemma CollectKeeps(s: State, ph: Phase)
    requires Safe(s) && Enabled(s, ph)
    ensures Safe(Collect(s, ph))
  {
    var k :| Inv(s, k, multiset{});
    match ph
    case Skip =>
    case FreeOne(c) =>
      PendingUnlinked(s, k, c);
      var k' := FreeCellKeeps(s, k, c);
    case ScanBoundary(c) =>
      ScanKeeps(s, k, c, Reachable);
      assert Inv(Collect(s, ph), k, multiset{});
    case ScanRoot(c) =>
      ScanKeeps(s, k, c, RootDone);
      assert Inv(Collect(s, ph), k, multiset{});
    case Sweep(c) =>
      k := TracedAreLive(s, k);
      var k' := FreeCellKeeps(s, k, c);
    case Swap =>
      var k' := SwapKeeps(s, k);
  }

  // ----- one operation

  lemma LinksLive(s: State, k: set<nat>, ls: seq<Link>)
    requires LiveSet(s.cells, k) && forall l :: l in ls ==> LinkReached(s, l)
    ensures AllLive(k, ls)
  {
    forall i | 0 <= i < |ls| && ls[i].To? ensures ls[i].id in k {
      assert LinkReached(s, ls[i]);
      ReachedIsLive(s, k, ls[i].id);
    }
  }

  /** The invariant is inductive, provided that a cell handed out again is unreferenced. */
  lemma ApplyKeeps(s: State, op: Op)
    requires Safe(s) && Allowed(s, op) && ReuseClean(s, op)
    ensures Safe(Apply(s, op))
  {
    var k :| Inv(s, k, multiset{});
    match op
    case OpNew(f, links) =>
      LinksLive(s, k, links);
      NewNodeKeeps(s, k, f, links);
      assert Inv(Apply(s, op), k + {f}, multiset{});
    case OpPatch(src, slot, target) =>
      ReachedIsLive(s, k, src);
      if target.To? {
        ReachedIsLive(s, k, target.id);
      }
      var k' := PatchKeeps(s, k, src, slot, target);
    case OpLock(c) =>
      ReachedIsLive(s, k, c);
      LockKeeps(s, k, c);
      assert Inv(Apply(s, op), k, multiset{});
    case OpUnlock(c) =>
      var k' := UnlockKeeps(s, k, c);
    case OpCollect(ph) =>
      CollectKeeps(s, ph);
  }

  /** The reuse check is not only sufficient: without it the very next state is inconsistent. */
  lemma ReuseNeedsCleanCell(s: State, op: Op)
    requires Safe(s) && Allowed(s, op)
    ensures Safe(Apply(s, op)) <==> ReuseClean(s, op)
  {
    if ReuseClean(s, op) {
      ApplyKeeps(s, op);
    } else {
      DirtyReuseBreaks(s, op.f, op.links);
    }
  }

  lemma DirtyReuseBreaks(s: State, f: nat, ls: seq<Link>)
    requires Safe(s) && Is(s, f, Free) && s.cells[f].refcount > 0
    requires AllInRange(s, ls) && forall l :: l in ls ==> LinkReached(s, l)
    ensures !Safe(NewNode(s, f, ls))
  {
    var k :| Inv(s, k, multiset{});
    LinksLive(s, k, ls);
    assert To(f) !in ls;
    var c := InDegreeHasSource(s.cells, f);
    var q := Request(s, f);
    NewLinksDo(q, ls);
    NewLinkAllEffect(q, ls);
    var r := NewNode(s, f, ls);
    assert c != f && r.cells[c].links == s.cells[c].links && !r.cells[c].place.Free?;
    LinkedHasInDegree(r.cells, c, f);
    assert r.cells[f].refcount == 0 && InDegree(r.cells, f) > 0;
  }

  // ----- what the invariant means

  /** No cell that the roots reach is free or about to be freed. */
  lemma SafeProtectsReached(s: State, c: nat)
    requires Safe(s) && Reached(s, c)
    ensures c < |s.cells| && !s.cells[c].place.Free? && !s.cells[c].place.FreePending?
  {
    var k :| Inv(s, k, multiset{});
    ReachedIsLive(s, k, c);
  }

  lemma RootReached(s: State, r: nat)
    requires IsRoot(s, r)
    ensures Reached(s, r)
  {
    assert PathFromTo(s.cells, [r], r, r);
  }

  lemma LockedAreRoots(s: State)
    requires Safe(s)
    ensures forall c :: ReachedFromLocked(s, c) ==> Reached(s, c)
  {
    forall c | ReachedFromLocked(s, c) ensures Reached(s, c) {
      var p: seq<nat>, r: nat :| r < |s.cells| && s.cells[r].locked && PathFromTo(s.cells, p, r, c);
      assert IsRoot(s, r);
    }
  }

  lemma PathInSameGraph(a: seq<Cell>, b: seq<Cell>, p: seq<nat>)
    requires SameGraph(a, b) && IsPath(a, p)
    ensures IsPath(b, p)
  {
    assert forall i :: 0 <= i < |p| - 1 && Edge(a, p[i], p[i + 1]) ==> Edge(b, p[i], p[i + 1]);
  }

  lemma LockedReachInSameGraph(s: State, t: State, c: nat)
    requires SameGraph(s.cells, t.cells) && ReachedFromLocked(s, c)
    ensures ReachedFromLocked(t, c)
  {
    var p: seq<nat>, r: nat :| r < |s.cells| && s.cells[r].locked && PathFromTo(s.cells, p, r, c);
    PathInSameGraph(s.cells, t.cells, p);
    assert PathFromTo(t.cells, p, r, c);
  }

  lemma {:induction false} StaleLinkAllEffect(s: State, ls: seq<Link>)
    requires AllInRange(s, ls)
    ensures forall c :: 0 <= c < |s.cells| ==>
      var p := StaleLinkAll(s, ls).cells[c].place;
      p == s.cells[c].place || (p.FreePending? && !s.cells[c].place.Free?)
    decreases |ls|
  {
    if ls != [] {
      StaleLinkAllEffect(StaleLink(s, ls[0]), ls[1..]);
    }
  }

  /** The cell a step frees is reached from no root, locked or not, when the step begins. */
  lemma FreedIsGarbage(s: State, ph: Phase)
    requires Safe(s) && Enabled(s, ph) && (ph.FreeOne? || ph.Sweep?)
    ensures !Reached(s, ph.c)
  {
    var k :| Inv(s, k, multiset{});
    if Reached(s, ph.c) {
      if ph.Sweep? {
        k := TracedAreLive(s, k);
      }
      ReachedIsLive(s, k, ph.c);
    }
  }

  /** A collector step takes nothing away from what a locked root reaches, frees no more than the one
      cell it works on, and only when no root at all reaches that cell. */
  lemma CollectFreesOnlyGarbage(s: State, ph: Phase, c: nat)
    requires Safe(s) && Enabled(s, ph) && c < |s.cells|
    ensures ReachedFromLocked(s, c) <==> ReachedFromLocked(Collect(s, ph), c)
    ensures ReachedFromLocked(s, c) ==> !Is(Collect(s, ph), c, Free) && !Is(Collect(s, ph), c, FreePending)
    ensures Is(Collect(s, ph), c, Free) && !Is(s, c, Free) ==> (ph.FreeOne? || ph.Sweep?) && ph.c == c && !Reached(s, c)
    ensures Is(s, c, Free) ==> Is(Collect(s, ph), c, Free)
  {
    hide Safe, Reached, ReachedFromLocked;
    SafeInRange(s);
    CollectKeeps(s, ph);
    var t := Collect(s, ph);
    if ReachedFromLocked(s, c) {
      LockedReachInSameGraph(s, t, c);
      LockedAreRoots(t);
      SafeProtectsReached(t, c);
    }
    if ReachedFromLocked(t, c) {
      LockedReachInSameGraph(t, s, c);
    }
    CollectPlaces(s, ph);
    if ph.FreeOne? || ph.Sweep? {
      FreedIsGarbage(s, ph);
    }
  }

  /** Only the freeing phases put a cell on the free list, and none takes one off it. */
  lemma CollectPlaces(s: State, ph: Phase)
    requires LinksInRange(s) && Enabled(s, ph)
    ensures forall c :: 0 <= c < |s.cells| ==>
      (Is(Collect(s, ph), c, Free) <==> Is(s, c, Free) || ((ph.FreeOne? || ph.Sweep?) && ph.c == c))
  {
    if ph.FreeOne? || ph.Sweep? {
      StaleLinkAllEffect(s, s.cells[ph.c].links);
    } else if ph.ScanBoundary? || ph.ScanRoot? {
      var ls := s.cells[ph.c].links;
      TryMoveAllEffect(s, ls);
      assert forall c :: 0 <= c < |s.cells| ==> PlaceMoved(s.cells[c], TryMoveAll(s, ls).cells[c], To(c) in ls);
    }
  }

  // ----- whole runs

  datatype Run = Start | Then(run: Run, op: Op, state: State)

  function Last(run: Run): State {
    match run
    case Start => EMPTY
    case Then(_, _, s) => s
  }

  /** A run from the empty heap whose callers keep to the rules; the reuse check is left open. */
  ghost predicate IsRun(run: Run) {
    match run
    case Start => true
    case Then(before, op, s) =>
      IsRun(before) && Allowed(Last(before), op) && s == Apply(Last(before), op)
  }

  /** Every cell the run handed out again was unreferenced at that time. */
  predicate ReusesCleanly(run: Run) {
    match run
    case Start => true
    case Then(before, op, _) => ReusesCleanly(before) && ReuseClean(Last(before), op)
  }

  /** Every operation of the program is followed by a step of the collector. */
  predicate Interleaved(run: Run) {
    run.Start? || (Interleaved(run.run) && (run.op.OpCollect? || run.run.Start? || run.run.op.OpCollect?))
  }

  lemma EmptyIsSafe()
    ensures Safe(EMPTY)
  {
    assert Inv(EMPTY, {}, multiset{});
  }

  lemma {:induction false} RunIsSafe(run: Run)
    requires IsRun(run) && ReusesCleanly(run)
    ensures Safe(Last(run))
  {
    match run
    case Start =>
      EmptyIsSafe();
    case Then(before, op, _) =>
      RunIsSafe(before);
      ApplyKeeps(Last(before), op);
  }

  /** Whole-run safety: whatever was interleaved, what the roots reach is neither free nor about to be. */
  lemma RunNeverLosesReached(run: Run, c: nat)
    requires IsRun(run) && ReusesCleanly(run) && Reached(Last(run), c)
    ensures !Is(Last(run), c, Free) && !Is(Last(run), c, FreePending)
  {
    RunIsSafe(run);
    SafeProtectsReached(Last(run), c);
  }

  /** Over every run, a count is the in-degree and the lists match it: what the collector asserts. */
  lemma RunKeepsCounts(run: Run, c: nat)
    requires IsRun(run) && ReusesCleanly(run) && c < |Last(run).cells|
    ensures var x := Last(run).cells[c];
      && x.refcount == InDegree(Last(run).cells, c)
      && (x.locked ==> x.place.IsRoot())
      && (x.place.FreePending? ==> x.refcount == 0)
      && (x.place.Boundary? || x.place.Reachable? || x.place.Unproc? ==> x.refcount > 0)
  {
    RunIsSafe(run);
    var k :| Inv(Last(run), k, multiset{});
    assert CellOk(Last(run).cells[c]);
  }
}
