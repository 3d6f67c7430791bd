/** The memory manager: its lists, flags and counters, updated in place by every call. The ghost field
    view is the heap the fields stand for; each method is proved to change it as Collector says. */
module Memory {
  import opened GcState
  import opened Rings
  import opened Collector
  import opened Safety
  import opened Runs
  import opened Cycles
  import opened Headers
  import opened Asserts
  import opened Wakes

  /** Every cell of the heap has the count, the flags and the links that the manager's fields hold. */
  ghost predicate Records(cells: seq<Cell>, refcount: seq<nat>, locked: seq<bool>, live: seq<bool>,
    links: seq<seq<Link>>)
  {
    && |cells| == |refcount| == |locked| == |live| == |links|
    && forall c: nat :: c < |cells| ==>
         && cells[c].refcount == refcount[c] && cells[c].locked == locked[c] && cells[c].links == links[c]
         && (live[c] <==> cells[c].place != Free)
  }

  lemma RecordsReplace(cells: seq<Cell>, refcount: seq<nat>, locked: seq<bool>, live: seq<bool>,
      links: seq<seq<Link>>, c: nat, x: Cell)
    requires Records(cells, refcount, locked, live, links) && c < |cells|
    ensures Records(cells[c := x], refcount[c := x.refcount], locked[c := x.locked], live[c := x.place != Free],
      links[c := x.links])
  {
  }

  /** A layout shows places only. */
  lemma ShowsReplace(l: Layout, cells: seq<Cell>, c: nat, x: Cell)
    requires Rings.Shows(l, cells) && c < |cells| && x.place == cells[c].place
    ensures Rings.Shows(l, cells[c := x])
  {
  }

  lemma ReuseShows(l: Layout, cells: seq<Cell>, c: nat)
    requires Rings.Shows(l, cells) && l.rings[FreeRing] != [] && c == l.rings[FreeRing][0] && c < |cells|
    ensures Rings.Shows(MovedToRoots(l, c, true), cells[c := Cell(RootTodo, false, 0, [])])
    ensures |MovedToRoots(l, c, true).rings[FreeRing]| == |l.rings[FreeRing]| - 1
  {
    MoveRootShows(l, cells, c, true);
    var m := cells[c := cells[c].(place := RootTodo)];
    ShowsReplace(MovedToRoots(l, c, true), m, c, Cell(RootTodo, false, 0, []));
    assert m[c := Cell(RootTodo, false, 0, [])] == cells[c := Cell(RootTodo, false, 0, [])];
    MinusMembers(l.rings[FreeRing], c);
  }

  /** The heap with another count of c. */
  function Counted(s: State, c: nat, n: nat): State
    requires c < |s.cells|
  {
    s.(cells := s.cells[c := s.cells[c].(refcount := n)])
  }

  lemma NewLinkByParts(s: State, c: nat)
    requires InUse(s, To(c))
    ensures var m := Counted(s, c, s.cells[c].refcount + 1);
      && InUse(m, To(c))
      && NewLink(s, To(c)) == if m.cells[c].place.Unproc? then SetPlace(m, c, Boundary) else m
  {
  }

  lemma StaleLinkByParts(s: State, c: nat)
    requires c < |s.cells|
    ensures StaleLink(s.(cleanCycles := 0), To(c)) == StaleLink(s, To(c))
    ensures s.cells[c].refcount == 0 ==> StaleLink(s, To(c)) == s.(cleanCycles := 0)
  {
  }

  lemma LongerHolds(s: seq<nat>, owner: seq<Ring>, r: Ring)
    requires Holds(s, owner, r) && r != NoRing
    ensures Holds(s, owner + [NoRing], r)
  {
  }

  lemma AllocShows(l: Layout, cells: seq<Cell>)
    requires Rings.Shows(l, cells)
    ensures var m := l.(owner := l.owner + [NoRing]);
      && m.Ok()
      && Rings.Shows(m.InsertRoot(|cells|, true), cells + [Cell(RootTodo, false, 0, [])])
      && m.InsertRoot(|cells|, true).rings[FreeRing] == l.rings[FreeRing]
  {
    hide Holds;
    var m := l.(owner := l.owner + [NoRing]);
    forall r | r in m.rings ensures Holds(m.rings[r], m.owner, r) {
      LongerHolds(l.rings[r], l.owner, r);
    }
    InsertRootOk(m, |cells|, true);
    var n := m.InsertRoot(|cells|, true);
    forall c: nat | c < |cells| ensures n.PlaceOf(c) == cells[c].place {
      assert m.PlaceOf(c) == l.PlaceOf(c);
    }
  }

  class MemoryState {
    ghost var view: State

    var lists: Layout
    var refcount: seq<nat>
    var locked: seq<bool>
    var live: seq<bool>
    var links: seq<seq<Link>>

    var totalAlloc: nat
    var totalFree: nat
    var iterCount: nat
    var cycleCount: nat
    var cleanCycles: nat
    var skippedCleanIters: nat

    ghost predicate Valid()
      reads this
    {
      && Rings.Shows(lists, view.cells)
      && Records(view.cells, refcount, locked, live, links)
      && cleanCycles == view.cleanCycles
      && totalAlloc == |view.cells|
      && totalFree == |lists.rings[FreeRing]|
    }

    constructor ()
      ensures Valid() && view == EMPTY && Safe(view)
      ensures iterCount == cycleCount == skippedCleanIters == 0
    {
      view := EMPTY;
      lists := Layout(map r | r in ALL_RINGS :: [], 0, [], WhiteRing);
      refcount, locked, live, links := [], [], [], [];
      totalAlloc, totalFree, iterCount, cycleCount, cleanCycles, skippedCleanIters := 0, 0, 0, 0, 0, 0;
      new;
      EmptyIsSafe();
    }

    /** Moving a cell other than to or from the free list changes none of the records. */
    lemma MoveRecords(c: nat, p: Place)
      requires Valid() && c < |view.cells| && view.cells[c].place != Free && p != Free
      ensures Records(SetPlace(view, c, p).cells, refcount, locked, live, links)
    {
    }

    lemma FreeRecords(c: nat)
      requires Valid() && c < |view.cells|
      ensures c < |live| && Records(SetPlace(view, c, Free).cells, refcount, locked, live[c := false], links)
    {
    }

    /** What the layout functions ask for. */
    lemma Movable(c: nat)
      requires Valid() && c < |view.cells|
      ensures lists.rings.Keys == ALL_RINGS && lists.sentinel <= |lists.rings[RootsRing]| && c < |lists.owner|
      ensures lists.Ok() && lists.owner[c] != NoRing
      ensures lists.reachable in {WhiteRing, BlackRing} && lists.PlaceOn(lists.reachable, false) == Reachable
    {
    }

    lemma FirstFree()
      requires Valid() && (FreeRing in lists.rings ==> lists.rings[FreeRing] != [])
      ensures lists.rings.Keys == ALL_RINGS && lists.sentinel <= |lists.rings[RootsRing]|
      ensures lists.rings[FreeRing][0] < |view.cells| == |lists.owner| && totalFree > 0
      ensures |refcount| == |locked| == |live| == |links| == |view.cells|
    {
      RingTells(lists, view.cells, FreeRing, Free);
    }

    /** What the records and the owner say of a cell. */
    lemma Owned(c: nat)
      requires Valid() && c < |view.cells|
      ensures |refcount| == |locked| == |live| == |lists.owner| == |view.cells| && !lists.Unproc().RootsRing?
      ensures refcount[c] == view.cells[c].refcount && locked[c] == view.cells[c].locked
      ensures live[c] <==> view.cells[c].place != Free
      ensures lists.owner[c] == PendingRing <==> view.cells[c].place == FreePending
      ensures lists.owner[c] == RootsRing <==> view.cells[c].place.IsRoot()
      ensures lists.owner[c] == lists.Unproc() <==> view.cells[c].place.Unproc?
    {
      OwnerTells(lists, view.cells, c);
    }

    // ----- dlnode_remove followed by an insertion

    method MoveTo(c: nat, r: Ring)
      requires Valid() && c < |view.cells| && view.cells[c].place != Free
      requires r in {PendingRing, BoundaryRing, WhiteRing, BlackRing}
      modifies this`lists, this`view
      ensures Valid() && view == SetPlace(old(view), c, old(lists).PlaceOn(r, false))
      ensures lists == Moved(old(lists), c, r) && lists.reachable == old(lists.reachable)
    {
      hide Rings.Shows, Moved, Records, Layout.Ok;
      Movable(c);
      assert lists.PlaceOn(r, false) != Free;
      MovedKeeps(lists, c, r);
      MoveShows(lists, view.cells, c, r);
      MoveRecords(c, lists.PlaceOn(r, false));
      view := SetPlace(view, c, lists.PlaceOn(r, false));
      lists := Moved(lists, c, r);
    }

    method MoveToRoots(c: nat, before: bool)
      requires Valid() && c < |view.cells| && view.cells[c].place != Free
      modifies this`lists, this`view
      ensures Valid() && view == SetPlace(old(view), c, if before then RootTodo else RootDone)
      ensures lists == MovedToRoots(old(lists), c, before)
    {
      hide Rings.Shows, MovedToRoots, Records, Layout.Ok;
      Movable(c);
      MoveRootShows(lists, view.cells, c, before);
      MoveRecords(c, if before then RootTodo else RootDone);
      view := SetPlace(view, c, if before then RootTodo else RootDone);
      lists := MovedToRoots(lists, c, before);
    }

    /** memcell_free: the cell joins the end of the free list. */
    method Release(c: nat)
      requires Valid() && c < |view.cells| && view.cells[c].place != Free
      modifies this`lists, this`view, this`live, this`totalFree
      ensures Valid() && view == SetPlace(old(view), c, Free)
      ensures totalFree == old(totalFree) + 1 && lists == Moved(old(lists), c, FreeRing)
    {
      hide Rings.Shows, Moved, Records, Layout.Ok;
      Movable(c);
      MoveShows(lists, view.cells, c, FreeRing);
      FreeRecords(c);
      view := SetPlace(view, c, Free);
      live := live[c := false];
      lists := Moved(lists, c, FreeRing);
      totalFree := totalFree + 1;
    }

    /** memcell_incref, memcell_decref */
    method Count(c: nat, n: nat)
      requires Valid() && c < |view.cells|
      modifies this`view, this`refcount
      ensures Valid() && view == Counted(old(view), c, n)
      ensures refcount == old(refcount)[c := n]
    {
      ghost var x := view.cells[c].(refcount := n);
      ShowsReplace(lists, view.cells, c, x);
      refcount := refcount[c := n];
      view := view.(cells := view.cells[c := x]);
    }

    // ----- advice about links

    method AdviseNewLink(l: Link)
      requires Valid() && InUse(view, l)
      modifies this`lists, this`view, this`refcount
      ensures Valid() && view == NewLink(old(view), l)
      ensures lists.reachable == old(lists.reachable)
    {
      hide Rings.Shows, Moved, Records, Layout.Ok;
      if l.To? {
        hide Counted, SetPlace, NewLink;
        Owned(l.id);
        NewLinkByParts(view, l.id);
        Count(l.id, refcount[l.id] + 1);
        ClaimReferenced(l.id);
      }
    }

    method ClaimReferenced(c: nat)
      requires Valid() && InUse(view, To(c))
      modifies this`lists, this`view
      ensures Valid() && lists.reachable == old(lists.reachable)
      ensures view == if old(view).cells[c].place.Unproc? then SetPlace(old(view), c, Boundary) else old(view)
    {
      hide Rings.Shows, Moved, Records, Layout.Ok;
      Owned(c);
      assert live[c];
      assert lists.owner[c] != PendingRing;
      if lists.owner[c] == lists.Unproc() {
        MoveTo(c, BoundaryRing);
      }
    }

    method AdviseStaleLink(l: Link)
      requires Valid() && Droppable(view, l)
      modifies this`lists, this`view, this`refcount, this`cleanCycles
      ensures Valid() && view == StaleLink(old(view), l)
      ensures lists.reachable == old(lists.reachable)
    {
      hide Rings.Shows, Moved, Records, Layout.Ok;
      if l.To? {
        hide StaleLink;
        Owned(l.id);
        StaleLinkByParts(view, l.id);
        cleanCycles := 0;
        view := view.(cleanCycles := 0);
        if refcount[l.id] == 0 {
          assert lists.owner[l.id] == PendingRing || !live[l.id];
        } else {
          DropReference(l.id);
        }
      }
    }

    method DropReference(c: nat)
      requires Valid() && c < |view.cells| && view.cells[c].refcount > 0 && view.cleanCycles == 0
      modifies this`lists, this`view, this`refcount
      ensures Valid() && view == StaleLink(old(view), To(c))
      ensures lists.reachable == old(lists.reachable)
    {
      hide Rings.Shows, Moved;
      ghost var was := view.cells[c];
      var last := refcount[c] == 1 && !locked[c] && live[c];
      assert last <==> was.refcount == 1 && !was.locked && !was.place.Free?;
      Count(c, refcount[c] - 1);
      if last {
        MoveTo(c, PendingRing);
      }
    }

    method TryMoveBoundary(l: Link)
      requires Valid() && TracedLinkOk(view, l)
      modifies this`lists, this`view
      ensures Valid() && view == TryMove(old(view), l)
      ensures lists.reachable == old(lists.reachable)
    {
      if l.To? {
        hide Rings.Shows, Moved, Records, Layout.Ok;
        var c := l.id;
        Owned(c);
        assert live[c];
        assert lists.owner[c] != PendingRing;
        assert refcount[c] > 0;
        if lists.owner[c] == lists.Unproc() {
          MoveTo(c, BoundaryRing);
        } else if lists.owner[c] == RootsRing {
          if !locked[c] {
            MoveTo(c, BoundaryRing);
          }
        }
      }
    }

    // ----- locks

    method GcLock(c: nat)
      requires Valid() && c < |view.cells| && view.cells[c].place != Free
      modifies this`lists, this`view, this`locked
      ensures Valid() && view == Lock(old(view), c)
    {
      SetLocked(c, true);
      OwnerTells(lists, view.cells, c);
      if lists.owner[c] != RootsRing {
        MoveToRoots(c, true);
      }
    }

    method GcUnlock(c: nat)
      requires Valid() && IsRoot(view, c)
      modifies this`lists, this`view, this`locked, this`cleanCycles
      ensures Valid() && view == Unlock(old(view), c)
    {
      assert lists.owner[c] == RootsRing by {
        OwnerTells(lists, view.cells, c);
      }
      MoveUnlocked(c);
      cleanCycles := 0;
      view := view.(cleanCycles := 0);
    }

    /** A referenced cell goes to the boundary, any other awaits freeing; the lock is cleared. */
    method MoveUnlocked(c: nat)
      requires Valid() && IsRoot(view, c)
      modifies this`lists, this`view, this`locked
      ensures Valid() && view == Unlock(old(view), c).(cleanCycles := old(view).cleanCycles)
    {
      hide Rings.Shows, Moved;
      var r := if refcount[c] > 0 then BoundaryRing else PendingRing;
      MoveTo(c, r);
      hide Records;
      SetLocked(c, false);
    }

    method SetLocked(c: nat, on: bool)
      requires Valid() && c < |view.cells|
      modifies this`view, this`locked
      ensures Valid() && view == old(view).(cells := old(view).cells[c := old(view).cells[c].(locked := on)])
    {
      ghost var x := view.cells[c].(locked := on);
      ShowsReplace(lists, view.cells, c, x);
      locked := locked[c := on];
      view := view.(cells := view.cells[c := x]);
    }

    // ----- allocation

    /** The first cell of the free list, if there is one, is unreferenced. */
    ghost predicate HeadIsClean()
      reads this
    {
      FreeRing in lists.rings && lists.rings[FreeRing] != [] ==>
        lists.rings[FreeRing][0] < |refcount| && refcount[lists.rings[FreeRing][0]] == 0
    }

    lemma HeadTells(l: Layout, cells: seq<Cell>, counts: seq<nat>)
      requires Valid() && l == lists && cells == view.cells && counts == refcount
      ensures FreeRing in l.rings
      ensures l.rings[FreeRing] == [] <==> NoneOn(view, Free)
      ensures l.rings[FreeRing] != [] ==>
        l.rings[FreeRing][0] < |cells| && counts[l.rings[FreeRing][0]] == cells[l.rings[FreeRing][0]].refcount
    {
      RingTells(l, cells, FreeRing, Free);
    }

    /** memory_request: the first cell of the free list is used again; without one, a new cell is made. */
    method MemoryRequest() returns (c: nat)
      requires Valid()
      modifies this`lists, this`view, this`refcount, this`locked, this`live, this`links, this`totalAlloc, this`totalFree
      ensures Valid() && Available(old(view), c) && view == Request(old(view), c)
      ensures old(lists.rings[FreeRing]) != [] ==> c == old(lists.rings[FreeRing])[0]
      ensures Safe(old(view)) && c < |old(view).cells| ==> !old(locked)[c]
    {
      RingTells(lists, view.cells, FreeRing, Free);
      if lists.rings[FreeRing] != [] {
        if Safe(view) {
          ReuseAsserts(view, lists.rings[FreeRing][0]);
        }
        c := Reuse();
      } else {
        c := Allocate();
      }
    }

    method Reuse() returns (c: nat)
      requires Valid() && lists.rings[FreeRing] != []
      modifies this`lists, this`view, this`refcount, this`locked, this`live, this`links, this`totalFree
      ensures Valid() && c == old(lists.rings[FreeRing])[0] && c < |old(view).cells| && view == Request(old(view), c)
    {
      hide Rings.Shows, MovedToRoots, Records, Layout.Ok;
      FirstFree();
      c := lists.rings[FreeRing][0];
      Movable(c);
      ReuseShows(lists, view.cells, c);
      RecordsReplace(view.cells, refcount, locked, live, links, c, Cell(RootTodo, false, 0, []));
      lists := MovedToRoots(lists, c, true);
      totalFree := totalFree - 1;
      refcount, locked, live, links := refcount[c := 0], locked[c := false], live[c := true], links[c := []];
      view := Request(view, c);
    }

    method Allocate() returns (c: nat)
      requires Valid()
      modifies this`lists, this`view, this`refcount, this`locked, this`live, this`links, this`totalAlloc
      ensures Valid() && c == |old(view).cells| && view == Request(old(view), c)
    {
      c := totalAlloc;
      AllocShows(lists, view.cells);
      lists := lists.(owner := lists.owner + [NoRing]);
      lists := lists.InsertRoot(c, true);
      totalAlloc := totalAlloc + 1;
      refcount, locked, live, links := refcount + [0], locked + [false], live + [true], links + [[]];
      view := Request(view, c);
    }

    /** Advise each of a new node's links; their counts run ahead of the heap until the node holds them. */
    method AdviseAll(ls: seq<Link>)
      requires Valid() && AllInUse(view, ls)
      modifies this`lists, this`view, this`refcount
      ensures Valid() && view == NewLinkAll(old(view), ls)
    {
      var i := 0;
      while i < |ls|
        invariant i <= |ls| && Valid() && AllInUse(view, ls)
        invariant NewLinkAll(view, ls[i..]) == NewLinkAll(old(view), ls)
      {
        assert InUse(view, ls[i]);
        assert ls[i..][1..] == ls[i + 1..];
        AdviseNewLink(ls[i]);
        i := i + 1;
      }
    }

    /** node_new with its links: the slots are advised one by one, then the cell holds them. The heap is safe
        afterwards just if the first cell of the free list was unreferenced; the assertions hold in any case. */
    method NodeNew(ls: seq<Link>) returns (c: nat)
      requires Valid() && Safe(view) && AllInRange(view, ls) && forall l :: l in ls ==> LinkReached(view, l)
      modifies this
      ensures Valid() && Allowed(old(view), OpNew(c, ls)) && view == NewNode(old(view), c, ls)
      ensures Safe(view) <==> old(HeadIsClean())
    {
      ghost var start := view;
      SafeInRange(start);
      HeadTells(lists, start.cells, refcount);
      hide Safe, Records, Reached;
      c := MemoryRequest();
      ReuseNeedsCleanCell(start, OpNew(c, ls));
      NewNodeAsserts(start, c, ls);
      hide LinkReached;
      AdviseAll(ls);
      StoreLinks(c, ls);
    }

    method StoreLinks(c: nat, ls: seq<Link>)
      requires Valid() && c < |view.cells|
      modifies this`view, this`links
      ensures Valid() && view == SetLinks(old(view), c, ls)
    {
      ghost var x := view.cells[c].(links := ls);
      ShowsReplace(lists, view.cells, c, x);
      links := links[c := ls];
      view := SetLinks(view, c, ls);
    }

    /** node_cons_patch_car and its like: retain the new target, store it, release the old one. */
    method PatchLink(c: nat, i: nat, l: Link)
      requires Valid() && Safe(view) && Allowed(view, OpPatch(c, i, l))
      modifies this
      ensures Valid() && Safe(view) && view == Apply(old(view), OpPatch(c, i, l))
    {
      hide Safe;
      ApplyKeeps(view, OpPatch(c, i, l));
      PatchAsserts(view, c, i, l);
      var was := links[c][i];
      AdviseNewLink(l);
      StoreLinks(c, links[c][i := l]);
      AdviseStaleLink(was);
    }

    // ----- the collector

    /** The link callback with dl_cb_decref_free_pending_z. */
    method DropLinks(c: nat)
      requires Valid() && c < |view.cells| && DroppableAll(view, view.cells[c].links)
      modifies this`lists, this`view, this`refcount, this`cleanCycles
      ensures Valid() && view == StaleLinkAll(old(view), old(view).cells[c].links)
    {
      var ls := links[c];
      var i := 0;
      while i < |ls|
        invariant i <= |ls| && Valid()
        invariant DroppableAll(view, ls[i..])
        invariant StaleLinkAll(view, ls[i..]) == StaleLinkAll(old(view), ls)
      {
        assert ls[i..][1..] == ls[i + 1..];
        AdviseStaleLink(ls[i]);
        i := i + 1;
      }
    }

    /** The link callback with dl_cb_try_move_boundary. */
    method TraceLinks(c: nat)
      requires Valid() && c < |view.cells| && TraceableAll(view, view.cells[c].links)
      modifies this`lists, this`view
      ensures Valid() && view == TryMoveAll(old(view), old(view).cells[c].links)
      ensures lists.reachable == old(lists.reachable)
    {
      var ls := links[c];
      var i := 0;
      while i < |ls|
        invariant i <= |ls| && Valid()
        invariant lists.reachable == old(lists.reachable)
        invariant TraceableAll(view, ls[i..])
        invariant TryMoveAll(view, ls[i..]) == TryMoveAll(old(view), ls)
      {
        assert ls[i..][1..] == ls[i + 1..];
        TryMoveBoundary(ls[i]);
        i := i + 1;
      }
    }

    method FreeAndUnlink(c: nat, ghost ph: Phase)
      requires Valid() && Safe(view) && Enabled(view, ph) && (ph.FreeOne? || ph.Sweep?) && ph.c == c
      modifies this`lists, this`view, this`refcount, this`cleanCycles, this`live, this`totalFree
      ensures Valid() && view == Collect(old(view), ph)
    {
      hide Safe;
      FreeAsserts(view, ph);
      assert !locked[c];
      assert ph.FreeOne? ==> refcount[c] == 0;
      DropLinks(c);
      Release(c);
      assert totalFree <= totalAlloc by {
        FreeListFits(lists, view.cells);
      }
    }

    method ScanBoundaryCell(c: nat)
      requires Valid() && Safe(view) && Enabled(view, ScanBoundary(c))
      modifies this`lists, this`view
      ensures Valid() && view == Collect(old(view), ScanBoundary(c))
    {
      hide Safe, Rings.Shows, Moved, Layout.Ok;
      ScanAsserts(view, ScanBoundary(c));
      assert !locked[c] && refcount[c] > 0;
      TraceLinks(c);
      Movable(c);
      MoveTo(c, lists.reachable);
    }

    method ScanRootCell(c: nat)
      requires Valid() && Safe(view) && Enabled(view, ScanRoot(c))
      modifies this`lists, this`view
      ensures Valid() && view == Collect(old(view), ScanRoot(c))
    {
      hide Safe;
      ScanAsserts(view, ScanRoot(c));
      TraceLinks(c);
      MoveToRoots(c, false);
    }

    /** The sentinel goes to the end of the roots, the coloured rings swap roles. */
    method SwapRings()
      requires Valid() && LinksInRange(view) && Enabled(view, Swap) && lists.sentinel == 0
      modifies this`lists, this`view, this`cleanCycles, this`cycleCount
      ensures Valid() && view == Collect(old(view), Swap) && cycleCount == old(cycleCount) + 1
    {
      SwapShows(lists, view);
      lists := lists.(sentinel := |lists.rings[RootsRing]|, reachable := lists.Unproc());
      cleanCycles := cleanCycles + 1;
      cycleCount := cycleCount + 1;
      view := SwapAll(view);
    }

    /** Work on the first cell of the first list that has work, or end the cycle. */
    method Work(ghost ph: Phase) returns (status: bool)
      requires Valid() && Safe(view) && LinksInRange(view) && Enabled(view, ph) && ph == PhaseFor(lists)
      modifies this`lists, this`view, this`refcount, this`cleanCycles, this`live, this`totalFree, this`cycleCount
      ensures Valid() && view == Collect(old(view), ph)
      ensures status <==> ph.Swap?
      ensures cycleCount == old(cycleCount) + (if ph.Swap? then 1 else 0)
    {
      hide Safe;
      status := false;
      if lists.rings[PendingRing] != [] {
        FreeAndUnlink(lists.rings[PendingRing][0], ph);
      } else if lists.rings[BoundaryRing] != [] {
        ScanBoundaryCell(lists.rings[BoundaryRing][0]);
      } else if lists.sentinel != 0 {
        ScanRootCell(lists.rings[RootsRing][0]);
      } else if lists.rings[lists.Unproc()] != [] {
        FreeAndUnlink(lists.rings[lists.Unproc()][0], ph);
      } else {
        SwapRings();
        status := true;
      }
    }

    /** memory_gc_iterate: one step of the collector; true when it ends a cycle or has nothing left to do. */
    method Iterate() returns (status: bool, ghost ph: Phase)
      requires Valid() && Safe(view)
      modifies this
      ensures Valid() && Safe(view)
      ensures IsStep(old(view), ph, view)
      ensures status <==> ph.Final()
      ensures ph == NextPhase(old(lists), old(cleanCycles))
      ensures InOrder(old(view), ph)
      ensures iterCount == old(iterCount) + (if ph.Skip? then 0 else 1)
      ensures cycleCount == old(cycleCount) + (if ph.Swap? then 1 else 0)
      ensures skippedCleanIters == old(skippedCleanIters) + (if ph.Skip? then 1 else 0)
    {
      hide Safe, Enabled, Collect, LinksInRange, Records, Rings.Shows, PhaseFor, IsStep;
      StepReady(lists, view);
      ph := NextPhase(lists, cleanCycles);
      if cleanCycles == 2 {
        skippedCleanIters := skippedCleanIters + 1;
        status := true;
      } else {
        iterCount := iterCount + 1;
        status := Work(ph);
      }
    }

    /** memory_gc_cycle ends, and it does so within five steps per cell that is not free, plus one. */
    method GcCycle() returns (ghost tr: Trace)
      requires Valid() && Safe(view)
      modifies this
      ensures Valid() && Safe(view)
      ensures IsCycle(tr) && tr.First() == old(view) && tr.Last() == view
      ensures iterCount <= old(iterCount) + 5 * LiveCount(old(view)) + 1
    {
      hide Safe, Records, Rings.Shows;
      ghost var before := Begin(view);
      ghost var ph;
      var status;
      status, ph := Iterate();
      while !status
        invariant Valid() && Safe(view) && (status <==> ph.Final())
        invariant Underway(before) && before.First() == old(view) && IsStep(before.Last(), ph, view)
        invariant iterCount <= old(iterCount) + before.Length() + 1
        decreases !status, Weight(view)
      {
        StepDropsWeight(before.Last(), ph);
        before := More(before, ph, view);
        status, ph := Iterate();
        if !status {
          StepDropsWeight(before.Last(), ph);
        }
      }
      tr := More(before, ph, view);
      CycleBound(tr);
    }

    /** Two cycles while the program is quiescent: what locked roots reach stays alive, and nothing but what some
        root reached does, unless clean cycles had suspended the collector. */
    method CollectAll()
      requires Valid() && Safe(view)
      modifies this
      ensures Valid() && Safe(view) && |live| == |old(view).cells|
      ensures forall c :: 0 <= c < |live| && ReachedFromLocked(old(view), c) ==> live[c]
      ensures old(cleanCycles) == 0 ==> forall c :: 0 <= c < |live| && live[c] ==> Reached(old(view), c)
      ensures old(cleanCycles) == 0 && AllRootsLocked(old(view)) ==>
        forall c :: 0 <= c < |live| ==> (live[c] <==> Reached(old(view), c))
    {
      ghost var start := view;
      ghost var one := GcCycle();
      ghost var two := GcCycle();
      hide IsCycle, Safe, Reached, ReachedFromLocked, Rings.Shows;
      CycleIsQuiet(one);
      CycleIsQuiet(two);
      forall c: nat | c < |start.cells|
        ensures ReachedFromLocked(start, c) ==> live[c]
        ensures live[c] && start.cleanCycles == 0 ==> Reached(start, c)
        ensures AllRootsLocked(start) ==> (Reached(start, c) <==> ReachedFromLocked(start, c))
      {
        TwoCyclesBounds(one, two, c);
        if AllRootsLocked(start) {
          RootsAreLocks(start, c);
        }
      }
    }

    /** node_droproot: a root is given up, and the collector takes a step. */
    method DropRoot(c: nat) returns (ghost ph: Phase)
      requires Valid() && Safe(view) && c < |view.cells|
      modifies this
      ensures Valid() && Safe(view) && IsStep(GivenUp(old(view), c), ph, view)
      ensures IsRoot(old(view), c) ==> cleanCycles == 0
    {
      ghost var was := view;
      SafeInRange(view);
      OwnerTells(lists, view.cells, c);
      hide Safe, Unlock, IsStep, Rings.Shows, Records;
      if lists.owner[c] == RootsRing {
        ApplyKeeps(view, OpUnlock(c));
        GcUnlock(c);
      }
      var status;
      status, ph := Iterate();
      if IsRoot(was, c) {
        UnlockKeepsAwake(was, c, ph, view);
      }
    }

    /** The last root is given up, and memory is checked for leaks: there are none. */
    method DropLastRoot(c: nat) returns (leaked: nat)
      requires Valid() && Safe(view) && IsRoot(view, c) && forall x: nat :: IsRoot(view, x) ==> x == c
      modifies this
      ensures leaked == 0 && forall x :: 0 <= x < |live| ==> !live[x]
    {
      ghost var was := view;
      SafeInRange(view);
      ghost var ph := DropRoot(c);
      LastRootGone(was, c, ph, view);
      hide Safe, Unlock, IsStep, Rings.Shows;
      ghost var start := view;
      leaked := LeakCheck();
      forall x: nat | x < |live|
        ensures !live[x]
      {
        NoRootsReachNothing(start, x);
      }
    }

    /** The check at exit: after two cycles the counters tell how many cells are alive, which are none when no
        roots were left, since giving up the last one has woken up the collector. */
    method LeakCheck() returns (leaked: nat)
      requires Valid() && Safe(view)
      modifies this
      ensures |live| == |old(view).cells| && leaked == LiveCount(view)
      ensures forall c :: 0 <= c < |live| && ReachedFromLocked(old(view), c) ==> live[c]
      ensures old(cleanCycles) == 0 ==> forall c :: 0 <= c < |live| && live[c] ==> Reached(old(view), c)
      ensures old(cleanCycles) == 0 && NoneOn(old(view), RootTodo) && NoneOn(old(view), RootDone) ==> leaked == 0
    {
      ghost var start := view;
      hide Reached, ReachedFromLocked, Rings.Shows, Safe;
      CollectAll();
      NotFreeCount(lists, view);
      leaked := totalAlloc - totalFree;
      if start.cleanCycles == 0 && NoneOn(start, RootTodo) && NoneOn(start, RootDone) {
        forall c: nat | c < |live| ensures !live[c] {
          NoRootsReachNothing(start, c);
        }
        AllFreeCount(view);
      }
    }

    method ReleaseRing(r: Ring)
      requires Valid() && r in ALL_RINGS && r != FreeRing
      modifies this`lists, this`view, this`live, this`totalFree
      ensures Valid() && lists.rings.Keys == ALL_RINGS && lists.rings[r] == [] && |view.cells| == |old(view).cells|
      ensures forall x :: x in ALL_RINGS && x != FreeRing && old(lists).rings[x] == [] ==> lists.rings[x] == []
    {
      while lists.rings[r] != []
        invariant Valid() && |view.cells| == |old(view).cells|
        invariant forall x :: x in ALL_RINGS && x != FreeRing && old(lists).rings[x] == [] ==> lists.rings[x] == []
        decreases |lists.rings[r]|
      {
        var c := lists.rings[r][0];
        FirstIsOn(lists, view.cells, r);
        ghost var was := lists;
        Release(c);
        MovedShrinks(was, view.cells, c, r);
      }
    }

    /** memory_state_reset: every cell goes to the free list, and then each one back to the allocator, once. */
    method Reset() returns (released: seq<nat>)
      requires Valid()
      modifies this
      ensures Distinct(released) && forall c: nat :: c in released <==> c < |old(view).cells|
      ensures forall r :: r in ALL_RINGS ==> lists.rings.Keys == ALL_RINGS && lists.rings[r] == []
    {
      hide Rings.Shows, Records;
      ReleaseRing(PendingRing);
      ReleaseRing(RootsRing);
      ReleaseRing(BoundaryRing);
      ReleaseRing(BlackRing);
      ReleaseRing(WhiteRing);
      OnlyFreeLeft(lists, view.cells);
      released := DrainFreeList();
    }

    method DrainFreeList() returns (released: seq<nat>)
      requires lists.rings.Keys == ALL_RINGS && forall r :: r in ALL_RINGS && r != FreeRing ==> lists.rings[r] == []
      modifies this`lists
      ensures released == old(lists.rings[FreeRing])
      ensures lists.rings.Keys == ALL_RINGS && forall r :: r in ALL_RINGS ==> lists.rings[r] == []
    {
      released := [];
      ghost var all := lists.rings[FreeRing];
      while lists.rings[FreeRing] != []
        invariant lists.rings.Keys == ALL_RINGS
        invariant forall r :: r in ALL_RINGS && r != FreeRing ==> lists.rings[r] == []
        invariant released + lists.rings[FreeRing] == all
        decreases |lists.rings[FreeRing]|
      {
        var mc := lists.rings[FreeRing][0];
        lists := lists.(rings := lists.rings[FreeRing := lists.rings[FreeRing][1..]]);
        released := released + [mc];
      }
    }
  }
}
