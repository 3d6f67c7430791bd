/** What the list headers say about the heap, and which step they select. */
module Headers {
  import opened Sums
  import opened GcState
  import opened Rings
  import opened Collector
  import opened Safety
  import opened Runs
  import opened Cycles

  /** The phase that the list headers select. */
  function PhaseFor(l: Layout): Phase
    requires l.rings.Keys == ALL_RINGS && l.sentinel <= |l.rings[RootsRing]|
  {
    if l.rings[PendingRing] != [] then FreeOne(l.rings[PendingRing][0])
    else if l.rings[BoundaryRing] != [] then ScanBoundary(l.rings[BoundaryRing][0])
    else if l.sentinel != 0 then ScanRoot(l.rings[RootsRing][0])
    else if l.rings[l.Unproc()] != [] then Sweep(l.rings[l.Unproc()][0])
    else Swap
  }

  /** A ring is empty when no cell has its place; its first cell has it. */
  lemma RingTells(l: Layout, cells: seq<Cell>, r: Ring, p: Place)
    requires Rings.Shows(l, cells) && r in l.rings && r != RootsRing && p == l.PlaceOn(r, false)
    ensures l.rings[r] == [] <==> forall c :: 0 <= c < |cells| ==> cells[c].place != p
    ensures l.rings[r] != [] ==> l.rings[r][0] < |cells| && cells[l.rings[r][0]].place == p
  {
    forall c: nat | c < |cells| ensures c in l.rings[r] <==> cells[c].place == p {
      OwnerTells(l, cells, c);
    }
    if l.rings[r] != [] {
      assert l.rings[r][0] in l.rings[r];
    }
  }

  lemma SentinelTells(l: Layout, cells: seq<Cell>)
    requires Rings.Shows(l, cells)
    ensures l.sentinel == 0 <==> forall c :: 0 <= c < |cells| ==> cells[c].place != RootTodo
    ensures l.sentinel != 0 ==> l.rings[RootsRing][0] < |cells| && cells[l.rings[RootsRing][0]].place == RootTodo
  {
    var roots := l.rings[RootsRing];
    forall c: nat | c < |cells| ensures c in roots[..l.sentinel] <==> cells[c].place == RootTodo {
      OwnerTells(l, cells, c);
      assert l.PlaceOf(c) == cells[c].place;
    }
    if l.sentinel != 0 {
      assert roots[0] in roots && roots[..l.sentinel][0] == roots[0];
    }
  }

  lemma WorkTells(l: Layout, s: State)
    requires Rings.Shows(l, s.cells) && s.cleanCycles != 2
    ensures Enabled(s, PhaseFor(l))
  {
    RingTells(l, s.cells, PendingRing, FreePending);
    RingTells(l, s.cells, BoundaryRing, Boundary);
    SentinelTells(l, s.cells);
    RingTells(l, s.cells, l.Unproc(), Place.Unproc);
  }

  /** The phase of the next iteration: two clean cycles in a row suspend the collector. */
  function NextPhase(l: Layout, cleanCycles: nat): Phase
    requires l.rings.Keys == ALL_RINGS && l.sentinel <= |l.rings[RootsRing]|
  {
    if cleanCycles == 2 then Skip else PhaseFor(l)
  }

  /** What the lists hold when a phase is due: all work of the phases before it is done. */
  ghost predicate InOrder(s: State, ph: Phase) {
    match ph
    case Skip => s.cleanCycles == 2
    case FreeOne(c) => s.cleanCycles != 2 && Is(s, c, FreePending)
    case ScanBoundary(c) => s.cleanCycles != 2 && Is(s, c, Boundary) && NoneOn(s, FreePending)
    case ScanRoot(c) => s.cleanCycles != 2 && Is(s, c, RootTodo) && NoneOn(s, FreePending) && NoneOn(s, Boundary)
    case Sweep(c) =>
      s.cleanCycles != 2 && Is(s, c, Unproc) && NoneOn(s, FreePending) && NoneOn(s, Boundary) && NoneOn(s, RootTodo)
    case Swap =>
      && s.cleanCycles != 2 && NoneOn(s, FreePending) && NoneOn(s, Boundary) && NoneOn(s, RootTodo)
      && NoneOn(s, Unproc)
  }

  lemma StepReady(l: Layout, s: State)
    requires Rings.Shows(l, s.cells) && Safe(s)
    ensures l.rings.Keys == ALL_RINGS && l.sentinel <= |l.rings[RootsRing]|
    ensures var ph := NextPhase(l, s.cleanCycles);
      && LinksInRange(s) && Enabled(s, ph) && Safe(Collect(s, ph)) && IsStep(s, ph, Collect(s, ph))
      && (ph.Skip? <==> s.cleanCycles == 2) && (ph.Skip? ==> Collect(s, ph) == s) && InOrder(s, ph)
  {
    if s.cleanCycles != 2 {
      WorkTells(l, s);
    }
    CollectKeeps(s, NextPhase(l, s.cleanCycles));
  }

  lemma SwapShows(l: Layout, s: State)
    requires Rings.Shows(l, s.cells) && Enabled(s, Swap) && l.sentinel == 0
    ensures Rings.Shows(l.(sentinel := |l.rings[RootsRing]|, reachable := l.Unproc()), SwapAll(s).cells)
  {
    var m := l.(sentinel := |l.rings[RootsRing]|, reachable := l.Unproc());
    var roots := l.rings[RootsRing];
    assert roots[..|roots|] == roots;
    forall c: nat | c < |s.cells| ensures m.PlaceOf(c) == SwapAll(s).cells[c].place {
      OwnerTells(l, s.cells, c);
      assert l.PlaceOf(c) == s.cells[c].place;
      assert c in roots <==> l.owner[c] == RootsRing;
    }
  }

  lemma FreeListFits(l: Layout, cells: seq<Cell>)
    requires Rings.Shows(l, cells)
    ensures |l.rings[FreeRing]| <= |cells|
  {
    assert Holds(l.rings[FreeRing], l.owner, FreeRing);
    assert forall i :: 0 <= i < |l.rings[FreeRing]| ==> l.rings[FreeRing][i] in l.rings[FreeRing];
    if |l.rings[FreeRing]| > |cells| {
      var i, j := Repeats(l.rings[FreeRing], |cells|);
    }
  }

  lemma {:induction false} RingCount(ring: seq<nat>, cells: seq<Cell>)
    requires Distinct(ring) && forall c: nat :: c in ring <==> c < |cells| && cells[c].place.Free?
    ensures Sum(cells, CountLive()) + |ring| == |cells|
    decreases |cells|
  {
    if cells == [] {
      assert ring == [] || ring[0] in ring;
    } else {
      var last := |cells| - 1;
      MinusMembers(ring, last);
      if last !in ring {
        MinusAbsent(ring, last);
      }
      RingCount(Minus(ring, last), cells[..last]);
    }
  }

  /** The counters tell how many cells are not on the free list. */
  lemma NotFreeCount(l: Layout, s: State)
    requires Rings.Shows(l, s.cells)
    ensures LiveCount(s) == |s.cells| - |l.rings[FreeRing]|
  {
    var ring := l.rings[FreeRing];
    assert Holds(ring, l.owner, FreeRing);
    forall c: nat
      ensures c in ring <==> c < |s.cells| && s.cells[c].place.Free?
    {
      if c < |s.cells| {
        OwnerTells(l, s.cells, c);
      }
    }
    RingCount(ring, s.cells);
  }

  // ----- tearing the heap down

  lemma FirstIsOn(l: Layout, cells: seq<Cell>, r: Ring)
    requires Rings.Shows(l, cells) && r in l.rings && r != FreeRing && l.rings[r] != []
    ensures l.rings[r][0] < |cells| && l.owner[l.rings[r][0]] == r && cells[l.rings[r][0]].place != Free
  {
    var c := l.rings[r][0];
    assert c in l.rings[r];
    OwnerTells(l, cells, c);
  }

  lemma MovedShrinks(l: Layout, cells: seq<Cell>, c: nat, r: Ring)
    requires l.Ok() && r in l.rings && r != FreeRing && c in l.rings[r]
    ensures c < |l.owner| && l.owner[c] == r
    ensures var m := Moved(l, c, FreeRing);
      |m.rings[r]| == |l.rings[r]| - 1 && forall x ::
        x in l.rings && x != FreeRing && l.rings[x] == [] ==> m.rings[x] == []
  {
    DetachOk(l, c);
    MinusMembers(l.rings[r], c);
  }

  lemma OnlyFreeLeft(l: Layout, cells: seq<Cell>)
    requires Rings.Shows(l, cells)
    requires forall r :: r in ALL_RINGS && r != FreeRing ==> l.rings[r] == []
    ensures Distinct(l.rings[FreeRing]) && forall c: nat :: c in l.rings[FreeRing] <==> c < |cells|
  {
    forall c: nat | c < |cells| ensures c in l.rings[FreeRing] {
      OwnerTells(l, cells, c);
      assert c in l.rings[l.owner[c]];
    }
  }
}
