/** Whole collection cycles: they end within a linear bound, and two of them leave exactly what is in use. */
module Cycles {
  import opened Sums
  import opened GcState
  import opened Collector
  import opened Safety
  import opened Runs

  /** A sequence of collector steps with nothing in between. */
  datatype Trace = Begin(start: State) | More(before: Trace, ph: Phase, state: State) {
    function First(): State {
      match this
      case Begin(s) => s
      case More(b, _, _) => b.First()
    }

    function Last(): State {
      match this
      case Begin(s) => s
      case More(_, _, s) => s
    }

    function Length(): nat {
      match this
      case Begin(_) => 0
      case More(b, _, _) => b.Length() + 1
    }
  }

  ghost predicate IsStep(s: State, ph: Phase, t: State) {
    LinksInRange(s) && Enabled(s, ph) && t == Collect(s, ph)
  }

  /** Steps of a cycle that has not ended yet: none of them reported completion. */
  ghost predicate Underway(tr: Trace) {
    match tr
    case Begin(_) => true
    case More(b, ph, s) => Underway(b) && !ph.Final() && IsStep(b.Last(), ph, s)
  }

  /** One call of memory_gc_cycle: steps up to and including the first that reports completion. */
  ghost predicate IsCycle(tr: Trace) {
    tr.More? && Underway(tr.before) && tr.ph.Final() && IsStep(tr.before.Last(), tr.ph, tr.state)
  }

  // ----- termination

  function Weigh(): Cell -> nat {
    (c: Cell) => match c.place
      case RootTodo => 5
      case RootDone => 4
      case Unproc => 4
      case Boundary => 3
      case Reachable => 2
      case FreePending => 1
      case Free => 0
  }

  function CountLive(): Cell -> nat {
    (c: Cell) => if c.place.Free? then 0 else 1
  }

  function Weight(s: State): nat {
    Sum(s.cells, Weigh())
  }

  function LiveCount(s: State): nat {
    Sum(s.cells, CountLive())
  }

  /** Every step that does not end the cycle makes strict progress, self-links included. */
  lemma StepDropsWeight(s: State, ph: Phase)
    requires LinksInRange(s) && Enabled(s, ph) && !ph.Final()
    ensures Weight(Collect(s, ph)) < Weight(s)
  {
    var t := Collect(s, ph);
    if ph.FreeOne? || ph.Sweep? {
      StaleLinkAllEffect(s, s.cells[ph.c].links);
    } else {
      var ls := s.cells[ph.c].links;
      TryMoveAllEffect(s, ls);
      assert forall c :: 0 <= c < |s.cells| ==> PlaceMoved(s.cells[c], TryMoveAll(s, ls).cells[c], To(c) in ls);
    }
    SumLess(t.cells, s.cells, Weigh(), ph.c);
  }

  lemma {:induction false} UnderwayBound(tr: Trace)
    requires Underway(tr)
    ensures tr.Length() + Weight(tr.Last()) <= Weight(tr.First())
  {
    if tr.More? {
      UnderwayBound(tr.before);
      StepDropsWeight(tr.before.Last(), tr.ph);
    }
  }

  /** A cycle takes at most five steps per cell that is not free, and the one that ends it. */
  lemma CycleBound(tr: Trace)
    requires IsCycle(tr)
    ensures tr.Length() <= 5 * LiveCount(tr.First()) + 1
  {
    UnderwayBound(tr.before);
    SumScaled(tr.First().cells, Weigh(), CountLive(), 5);
  }

  // ----- what steps keep when the program is quiescent

  /** The same links and locks, and no roots but those there were. */
  ghost predicate NoNewRoots(s: State, t: State) {
    SameGraph(s.cells, t.cells) && forall c :: IsRoot(t, c) ==> IsRoot(s, c)
  }

  lemma StepMakesNoRoots(s: State, ph: Phase)
    requires LinksInRange(s) && Enabled(s, ph)
    ensures NoNewRoots(s, Collect(s, ph))
  {
    if ph.FreeOne? || ph.Sweep? {
      StaleLinkAllEffect(s, s.cells[ph.c].links);
    } else if ph.ScanBoundary? || ph.ScanRoot? {
      var ls := s.cells[ph.c].links;
      TryMoveAllEffect(s, ls);
      assert forall c :: 0 <= c < |s.cells| ==> PlaceMoved(s.cells[c], TryMoveAll(s, ls).cells[c], To(c) in ls);
    }
  }

  lemma {:induction false} StaleLinkAllClean(s: State, ls: seq<Link>)
    requires AllInRange(s, ls)
    ensures StaleLinkAll(s, ls).cleanCycles in {0, s.cleanCycles}
    decreases |ls|
  {
    if ls != [] {
      StaleLinkAllClean(StaleLink(s, ls[0]), ls[1..]);
    }
  }

  lemma StepKeepsClean(s: State, ph: Phase)
    requires LinksInRange(s) && Enabled(s, ph) && !ph.Final()
    ensures Collect(s, ph).cleanCycles in {0, s.cleanCycles}
  {
    if ph.FreeOne? || ph.Sweep? {
      StaleLinkAllClean(s, s.cells[ph.c].links);
    } else {
      TryMoveAllEffect(s, s.cells[ph.c].links);
    }
  }

  lemma {:induction false} UnderwayIsQuiet(tr: Trace)
    requires Underway(tr) && Safe(tr.First())
    ensures Safe(tr.Last()) && NoNewRoots(tr.First(), tr.Last())
    ensures tr.Last().cleanCycles in {0, tr.First().cleanCycles}
  {
    hide Safe, Collect, Enabled;
    if tr.More? {
      UnderwayIsQuiet(tr.before);
      var s := tr.before.Last();
      SafeInRange(s);
      CollectKeeps(s, tr.ph);
      StepMakesNoRoots(s, tr.ph);
      StepKeepsClean(s, tr.ph);
    }
  }

  lemma CycleIsQuiet(tr: Trace)
    requires IsCycle(tr) && Safe(tr.First())
    ensures Safe(tr.Last()) && NoNewRoots(tr.First(), tr.Last())
  {
    hide Safe, Collect, Enabled, Underway;
    UnderwayIsQuiet(tr.before);
    CollectKeeps(tr.before.Last(), tr.ph);
    SafeInRange(tr.before.Last());
    StepMakesNoRoots(tr.before.Last(), tr.ph);
  }

  // ----- reachability from roots

  lemma FollowLink(s: State, a: nat, b: nat)
    requires Reached(s, a) && Edge(s.cells, a, b)
    ensures Reached(s, b)
  {
    var p: seq<nat>, r: nat :| IsRoot(s, r) && PathFromTo(s.cells, p, r, a);
    ExtendPath(s.cells, p, r, a, b);
  }

  /** What is reached later was reached before. */
  lemma ReachedBefore(s: State, t: State, c: nat)
    requires NoNewRoots(s, t) && Reached(t, c)
    ensures Reached(s, c)
  {
    var p: seq<nat>, r: nat :| IsRoot(t, r) && PathFromTo(t.cells, p, r, c);
    PathInSameGraph(t.cells, s.cells, p);
    assert PathFromTo(s.cells, p, r, c);
  }

  lemma RootsAreLocks(s: State, c: nat)
    requires Safe(s) && AllRootsLocked(s)
    ensures Reached(s, c) <==> ReachedFromLocked(s, c)
  {
    LockedAreRoots(s);
    if Reached(s, c) {
      var p: seq<nat>, r: nat :| IsRoot(s, r) && PathFromTo(s.cells, p, r, c);
      assert s.cells[r].locked;
    }
  }

  ghost predicate AllRootsLocked(s: State) {
    forall c :: 0 <= c < |s.cells| && s.cells[c].place.IsRoot() ==> s.cells[c].locked
  }

  // ----- a cycle that starts with nothing marked marks only what the roots reach

  predicate Marked(s: State, c: nat) {
    c < |s.cells| && (s.cells[c].place.Boundary? || s.cells[c].place.Reachable?)
  }

  /** All cells that are marked in s were reached by the roots in o. */
  ghost predicate MarkedReached(o: State, s: State) {
    forall c: nat :: Marked(s, c) ==> Reached(o, c)
  }

  lemma ScanMarksReached(o: State, s: State, ph: Phase)
    requires LinksInRange(s) && Enabled(s, ph) && (ph.ScanBoundary? || ph.ScanRoot?)
    requires NoNewRoots(o, s) && MarkedReached(o, s)
    ensures MarkedReached(o, Collect(s, ph))
  {
    var t := Collect(s, ph);
    var ls := s.cells[ph.c].links;
    TryMoveAllEffect(s, ls);
    hide Reached;
    if ph.ScanRoot? {
      RootReached(o, ph.c);
    } else {
      assert Marked(s, ph.c);
    }
    forall c: nat | Marked(t, c)
      ensures Reached(o, c)
    {
      assert PlaceMoved(s.cells[c], TryMoveAll(s, ls).cells[c], To(c) in ls);
      if To(c) in ls {
        FollowLink(o, ph.c, c);
      } else {
        assert Marked(s, c);
      }
    }
  }

  /** Freeing a cell marks nothing. */
  lemma FreeingMarksNothing(o: State, s: State, ph: Phase)
    requires LinksInRange(s) && Enabled(s, ph) && (ph.FreeOne? || ph.Sweep?) && MarkedReached(o, s)
    ensures MarkedReached(o, Collect(s, ph))
  {
    hide Reached;
    var t := Collect(s, ph);
    StaleLinkAllEffect(s, s.cells[ph.c].links);
    assert forall c: nat :: Marked(t, c) ==> Marked(s, c);
  }

  lemma {:induction false} UnderwayMarksReached(tr: Trace)
    requires Underway(tr) && Safe(tr.First()) && MarkedReached(tr.First(), tr.First())
    ensures MarkedReached(tr.First(), tr.Last())
  {
    hide Safe, MarkedReached, Collect, NoNewRoots;
    if tr.More? {
      UnderwayIsQuiet(tr.before);
      UnderwayMarksReached(tr.before);
      var s := tr.before.Last();
      if tr.ph.ScanBoundary? || tr.ph.ScanRoot? {
        ScanMarksReached(tr.First(), s, tr.ph);
      } else {
        FreeingMarksNothing(tr.First(), s, tr.ph);
      }
    }
  }

  // ----- what cycles leave

  /** No cycle frees what a locked root reaches, whenever it starts. */
  lemma CycleSpares(tr: Trace, c: nat)
    requires IsCycle(tr) && Safe(tr.First()) && ReachedFromLocked(tr.First(), c)
    ensures c < |tr.Last().cells| && !Is(tr.Last(), c, Free) && ReachedFromLocked(tr.Last(), c)
  {
    hide IsCycle, Safe, ReachedFromLocked, Reached;
    CycleIsQuiet(tr);
    LockedReachInSameGraph(tr.First(), tr.Last(), c);
    LockedAreRoots(tr.Last());
    SafeProtectsReached(tr.Last(), c);
  }

  /** Right after a swap nothing is marked, and no cell is left on the pending list. */
  predicate Fresh(s: State) {
    forall c :: 0 <= c < |s.cells| ==> s.cells[c].place in {Free, RootTodo, Unproc}
  }

  /** Two clean cycles in a row suspend the collector; before, every cycle ends with a swap. */
  lemma CycleEndsFresh(tr: Trace)
    requires IsCycle(tr) && Safe(tr.First()) && tr.First().cleanCycles < 2
    ensures tr.ph.Swap? && Fresh(tr.Last())
    ensures tr.Last().cleanCycles in {1, tr.First().cleanCycles + 1}
  {
    hide Safe;
    UnderwayIsQuiet(tr.before);
  }

  /** A cycle that starts with nothing marked frees everything that no root reaches. */
  lemma FreshCycleFrees(tr: Trace, c: nat)
    requires IsCycle(tr) && tr.ph.Swap? && Safe(tr.First()) && Fresh(tr.First())
    requires c < |tr.Last().cells| && !Is(tr.Last(), c, Free)
    ensures Reached(tr.First(), c)
  {
    hide Safe, Reached;
    var s, u := tr.First(), tr.before.Last();
    assert forall d: nat :: !Marked(s, d);
    UnderwayIsQuiet(tr.before);
    UnderwayMarksReached(tr.before);
    if u.cells[c].place.RootDone? {
      RootReached(s, c);
    } else {
      assert Marked(u, c);
    }
  }

  /** Two cycles from any safe heap: what locked roots reach survives, and only what some root reached when they
      began. In between there may be unlocked roots, which the collector may or may not still count as roots. */
  lemma TwoCyclesBounds(one: Trace, two: Trace, c: nat)
    requires IsCycle(one) && IsCycle(two) && two.First() == one.Last()
    requires Safe(one.First()) && c < |one.First().cells|
    ensures |two.Last().cells| == |one.First().cells|
    ensures ReachedFromLocked(one.First(), c) ==> !Is(two.Last(), c, Free)
    ensures !Is(two.Last(), c, Free) && one.First().cleanCycles == 0 ==> Reached(one.First(), c)
  {
    hide Safe, ReachedFromLocked, Reached;
    CycleIsQuiet(one);
    CycleIsQuiet(two);
    if ReachedFromLocked(one.First(), c) {
      CycleSpares(one, c);
      CycleSpares(two, c);
    }
    if !Is(two.Last(), c, Free) && one.First().cleanCycles == 0 {
      CycleEndsFresh(one);
      CycleEndsFresh(two);
      FreshCycleFrees(two, c);
      ReachedBefore(one.First(), two.First(), c);
    }
  }

  /** Exact completeness: when all roots are locked, after two cycles a cell is not free if and only if the roots
      reached it at the start. */
  lemma TwoCyclesExact(one: Trace, two: Trace, c: nat)
    requires IsCycle(one) && IsCycle(two) && two.First() == one.Last()
    requires Safe(one.First()) && AllRootsLocked(one.First()) && one.First().cleanCycles == 0
    requires c < |one.First().cells|
    ensures |two.Last().cells| == |one.First().cells|
    ensures !Is(two.Last(), c, Free) <==> Reached(one.First(), c)
  {
    hide IsCycle, Safe, ReachedFromLocked, Reached;
    TwoCyclesBounds(one, two, c);
    RootsAreLocks(one.First(), c);
  }

  lemma NoRootsReachNothing(s: State, c: nat)
    requires NoneOn(s, RootTodo) && NoneOn(s, RootDone)
    ensures !Reached(s, c)
  {
  }

  lemma AllFreeCount(s: State)
    requires forall c :: 0 <= c < |s.cells| ==> s.cells[c].place.Free?
    ensures LiveCount(s) == 0
  {
    SumScaled(s.cells, CountLive(), CountLive(), 0);
  }

  /** The leak check at exit: with no roots left, two cycles free everything there is. */
  lemma NoRootsFreesAll(one: Trace, two: Trace)
    requires IsCycle(one) && IsCycle(two) && two.First() == one.Last()
    requires Safe(one.First()) && one.First().cleanCycles == 0
    requires NoneOn(one.First(), RootTodo) && NoneOn(one.First(), RootDone)
    ensures forall c :: 0 <= c < |two.Last().cells| ==> two.Last().cells[c].place.Free?
    ensures LiveCount(two.Last()) == 0
  {
    CycleIsQuiet(one);
    CycleIsQuiet(two);
    hide IsCycle, Safe, Reached, ReachedFromLocked;
    forall c: nat | c < |two.Last().cells| ensures two.Last().cells[c].place.Free? {
      NoRootsReachNothing(one.First(), c);
      TwoCyclesBounds(one, two, c);
    }
    AllFreeCount(two.Last());
  }
}
