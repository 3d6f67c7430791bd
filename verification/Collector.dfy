/** What every operation of the memory manager does to the heap, as functions on states.
    Which element of a list a step takes is a parameter, so results hold for every list order. */
module Collector {
  import opened GcState

  function SetPlace(s: State, c: nat, p: Place): (r: State)
    requires c < |s.cells|
  {
    s.(cells := s.cells[c := s.cells[c].(place := p)])
  }

  // ----- link barrier

  /** A link to l's cell was made: count it, and pull the cell out of the unprocessed list. */
  function NewLink(s: State, l: Link): (r: State)
    requires InRange(s, l)
    ensures SameGraph(s.cells, r.cells)
  {
    match l
    case Null => s
    case To(t) =>
      var c := s.cells[t];
      s.(cells := s.cells[t := c.(refcount := c.refcount + 1,
                                  place := if c.place.Unproc? then Boundary else c.place)])
  }

  /** A link to l's cell was dropped: uncount it; an unreferenced, unlocked cell awaits freeing. */
  function StaleLink(s: State, l: Link): (r: State)
    requires InRange(s, l)
    ensures SameGraph(s.cells, r.cells)
  {
    match l
    case Null => s
    case To(t) =>
      var c := s.cells[t];
      if c.refcount == 0 then
        s.(cleanCycles := 0)
      else
        State(s.cells[t := c.(refcount := c.refcount - 1,
                              place := if c.refcount == 1 && !c.locked && !c.place.Free?
                                       then FreePending else c.place)], 0)
  }

  function NewLinkAll(s: State, ls: seq<Link>): (r: State)
    requires AllInRange(s, ls)
    ensures SameGraph(s.cells, r.cells)
    decreases |ls|
  {
    if ls == [] then s else NewLinkAll(NewLink(s, ls[0]), ls[1..])
  }

  function StaleLinkAll(s: State, ls: seq<Link>): (r: State)
    requires AllInRange(s, ls)
    ensures SameGraph(s.cells, r.cells)
    decreases |ls|
  {
    if ls == [] then s else StaleLinkAll(StaleLink(s, ls[0]), ls[1..])
  }

  // ----- collector steps

  /** The tracing callback: an unprocessed cell or an unlocked root goes to the boundary. */
  function TryMove(s: State, l: Link): (r: State)
    requires InRange(s, l)
    ensures SameGraph(s.cells, r.cells)
  {
    match l
    case Null => s
    case To(t) =>
      var c := s.cells[t];
      if c.place.Unproc? || (c.place.IsRoot() && !c.locked) then SetPlace(s, t, Boundary) else s
  }

  function TryMoveAll(s: State, ls: seq<Link>): (r: State)
    requires AllInRange(s, ls)
    ensures SameGraph(s.cells, r.cells)
    decreases |ls|
  {
    if ls == [] then s else TryMoveAll(TryMove(s, ls[0]), ls[1..])
  }

  /** Drop all the links a cell holds, then put it on the free list. Its slots are not cleared. */
  function FreeCell(s: State, c: nat): (r: State)
    requires c < |s.cells| && AllInRange(s, s.cells[c].links)
    ensures SameGraph(s.cells, r.cells)
  {
    SetPlace(StaleLinkAll(s, s.cells[c].links), c, Free)
  }

  /** Trace through a cell's links, then put it on the list of the cells that are done with. */
  function Scan(s: State, c: nat, done: Place): (r: State)
    requires c < |s.cells| && AllInRange(s, s.cells[c].links)
    ensures SameGraph(s.cells, r.cells)
  {
    SetPlace(TryMoveAll(s, s.cells[c].links), c, done)
  }

  function Flip(c: Cell): Cell {
    match c.place
    case RootDone => c.(place := RootTodo)
    case Reachable => c.(place := Unproc)
    case _ => c
  }

  /** The end of a cycle: the sentinel moves past all roots, reachable and unprocessed swap roles. */
  function SwapAll(s: State): (r: State)
    ensures SameGraph(s.cells, r.cells)
  {
    State(seq(|s.cells|, i requires 0 <= i < |s.cells| => Flip(s.cells[i])), s.cleanCycles + 1)
  }

  /** What one collector iteration does: at most one cell is worked on. */
  datatype Phase =
    | Skip
    | FreeOne(c: nat)
    | ScanBoundary(c: nat)
    | ScanRoot(c: nat)
    | Sweep(c: nat)
    | Swap
  {
    predicate Final() {
      Skip? || Swap?
    }
  }

  /** The phases have a fixed priority; a phase is chosen only when all earlier ones have no work. */
  ghost predicate Enabled(s: State, ph: Phase) {
    && (ph.Skip? <==> s.cleanCycles == 2)
    && (ph.FreeOne? ==> Is(s, ph.c, FreePending))
    && (ph.ScanBoundary? ==> Is(s, ph.c, Boundary))
    && (ph.ScanRoot? ==> Is(s, ph.c, RootTodo))
    && (ph.Sweep? ==> Is(s, ph.c, Unproc))
    && (ph.ScanBoundary? || ph.ScanRoot? || ph.Sweep? || ph.Swap? ==> NoneOn(s, FreePending))
    && (ph.ScanRoot? || ph.Sweep? || ph.Swap? ==> NoneOn(s, Boundary))
    && (ph.Sweep? || ph.Swap? ==> NoneOn(s, RootTodo))
    && (ph.Swap? ==> NoneOn(s, Unproc))
  }

  ghost predicate LinksInRange(s: State) {
    forall c :: 0 <= c < |s.cells| ==> AllInRange(s, s.cells[c].links)
  }

  ghost function Collect(s: State, ph: Phase): (r: State)
    requires LinksInRange(s) && Enabled(s, ph)
    ensures SameGraph(s.cells, r.cells)
  {
    match ph
    case Skip => s
    case FreeOne(c) => FreeCell(s, c)
    case ScanBoundary(c) => Scan(s, c, Reachable)
    case ScanRoot(c) => Scan(s, c, RootDone)
    case Sweep(c) => FreeCell(s, c)
    case Swap => SwapAll(s)
  }

  // ----- mutator operations

  /** Hand out cell f, a free one or else a brand new one, as an unlocked root without links. */
  function Request(s: State, f: nat): (r: State)
    requires f <= |s.cells|
    ensures |s.cells| <= |r.cells| && f < |r.cells|
  {
    var blank := Cell(RootTodo, false, 0, []);
    s.(cells := if f < |s.cells| then s.cells[f := blank] else s.cells + [blank])
  }

  function SetLinks(s: State, c: nat, ls: seq<Link>): State
    requires c < |s.cells|
  {
    s.(cells := s.cells[c := s.cells[c].(links := ls)])
  }

  /** Allocate a node whose link slots are given: each target is advised before it is stored. */
  function NewNode(s: State, f: nat, ls: seq<Link>): State
    requires f <= |s.cells| && AllInRange(s, ls)
  {
    SetLinks(NewLinkAll(Request(s, f), ls), f, ls)
  }

  /** Overwrite one link slot: advise the new target, store it, release the old target. */
  function Patch(s: State, c: nat, i: nat, l: Link): State
    requires c < |s.cells| && i < |s.cells[c].links| && InRange(s, l) && InRange(s, s.cells[c].links[i])
  {
    var old_ := s.cells[c].links[i];
    StaleLink(SetLinks(NewLink(s, l), c, s.cells[c].links[i := l]), old_)
  }

  function Lock(s: State, c: nat): State
    requires c < |s.cells|
  {
    var x := s.cells[c];
    s.(cells := s.cells[c := x.(locked := true, place := if x.place.IsRoot() then x.place else RootTodo)])
  }

  function Unlock(s: State, c: nat): State
    requires c < |s.cells|
  {
    var x := s.cells[c];
    State(s.cells[c := x.(locked := false, place := if x.refcount > 0 then Boundary else FreePending)], 0)
  }

  datatype Op =
    | OpNew(f: nat, links: seq<Link>)
    | OpPatch(src: nat, slot: nat, target: Link)
    | OpLock(c: nat)
    | OpUnlock(c: nat)
    | OpCollect(ph: Phase)

  /** A new node takes a free cell when there is one and is appended otherwise. */
  ghost predicate Available(s: State, f: nat) {
    if NoneOn(s, Free) then f == |s.cells| else Is(s, f, Free)
  }

  /** What the memory manager asks of its callers: they only use cells they can still reach. */
  ghost predicate Allowed(s: State, op: Op) {
    && LinksInRange(s)
    && match op
       case OpNew(f, links) => Available(s, f) && AllInRange(s, links) && forall l :: l in links ==> LinkReached(s, l)
       case OpPatch(src, slot, target) =>
         && Reached(s, src)
         && src < |s.cells| && slot < |s.cells[src].links|
         && InRange(s, target) && LinkReached(s, target)
       case OpLock(c) => c < |s.cells| && Reached(s, c)
       case OpUnlock(c) => IsRoot(s, c)
       case OpCollect(ph) => Enabled(s, ph)
  }

  /** The check that memory_request has commented out: a cell that is handed out again is unreferenced. */
  predicate ReuseClean(s: State, op: Op) {
    op.OpNew? && op.f < |s.cells| ==> s.cells[op.f].refcount == 0
  }

  ghost function Apply(s: State, op: Op): State
    requires Allowed(s, op)
  {
    match op
    case OpNew(f, links) => NewNode(s, f, links)
    case OpPatch(src, slot, target) => Patch(s, src, slot, target)
    case OpLock(c) => Lock(s, c)
    case OpUnlock(c) => Unlock(s, c)
    case OpCollect(ph) => Collect(s, ph)
  }

  // ----- what the operations do to each cell

  /** Advised links are counted, and pull their targets out of the unprocessed list; nothing else changes. */
  lemma {:induction false} NewLinksDo(s: State, ls: seq<Link>)
    requires AllInRange(s, ls)
    ensures NewLinkAll(s, ls).cleanCycles == s.cleanCycles
    ensures forall c :: 0 <= c < |s.cells| ==>
      var x := s.cells[c];
      NewLinkAll(s, ls).cells[c] == x.(refcount := x.refcount + multiset(ls)[To(c)],
                                       place := if To(c) in ls && x.place.Unproc? then Boundary else x.place)
    decreases |ls|
  {
    if ls != [] {
      NewLinksDo(NewLink(s, ls[0]), ls[1..]);
      assert ls == [ls[0]] + ls[1..];
    }
  }

  function Monus(a: nat, b: nat): nat {
    if a > b then a - b else 0
  }

  /** Dropped links are uncounted, as far as the count goes; a cell that loses its last counted link awaits
      freeing, unless it is locked or free already. */
  function Dropped(x: Cell, n: nat): Cell {
    x.(refcount := Monus(x.refcount, n),
       place := if 0 < x.refcount <= n && !x.locked && !x.place.Free? then FreePending else x.place)
  }

  lemma DroppedTwice(x: Cell, a: nat, b: nat)
    ensures Dropped(Dropped(x, a), b) == Dropped(x, a + b)
  {
  }

  /** Dropping links restarts the count of clean cycles, unless all of them are null. */
  predicate SomeLink(ls: seq<Link>) {
    exists i :: 0 <= i < |ls| && ls[i].To?
  }

  lemma StaleLinkDoes(s: State, l: Link)
    requires InRange(s, l)
    ensures forall c :: 0 <= c < |s.cells| ==> StaleLink(s, l).cells[c] == Dropped(s.cells[c], multiset{l}[To(c)])
    ensures StaleLink(s, l).cleanCycles == if l.To? then 0 else s.cleanCycles
  {
  }

  lemma {:induction false} StaleLinksDo(s: State, ls: seq<Link>)
    requires AllInRange(s, ls)
    ensures forall c :: 0 <= c < |s.cells| ==> StaleLinkAll(s, ls).cells[c] == Dropped(s.cells[c], multiset(ls)[To(c)])
    ensures StaleLinkAll(s, ls) == State(StaleLinkAll(s, ls).cells, if SomeLink(ls) then 0 else s.cleanCycles)
    decreases |ls|
  {
    hide Dropped, StaleLink;
    if ls == [] {
      forall c | 0 <= c < |s.cells| ensures s.cells[c] == Dropped(s.cells[c], 0) {
        DroppedNone(s.cells[c]);
      }
    } else {
      var t := StaleLink(s, ls[0]);
      StaleLinkDoes(s, ls[0]);
      StaleLinksDo(t, ls[1..]);
      assert ls == [ls[0]] + ls[1..];
      forall c | 0 <= c < |s.cells|
        ensures StaleLinkAll(s, ls).cells[c] == Dropped(s.cells[c], multiset(ls)[To(c)])
      {
        DroppedTwice(s.cells[c], multiset{ls[0]}[To(c)], multiset(ls[1..])[To(c)]);
      }
    }
  }

  lemma DroppedNone(x: Cell)
    ensures Dropped(x, 0) == x
  {
  }

  /** Freeing drops the cell's links and takes the cell to the free list, whatever list a self-link has put it on. */
  lemma FreeCellDoes(s: State, c: nat)
    requires c < |s.cells| && AllInRange(s, s.cells[c].links)
    ensures forall x :: 0 <= x < |s.cells| ==>
      var y := Dropped(s.cells[x], multiset(s.cells[c].links)[To(x)]);
      FreeCell(s, c).cells[x] == if x == c then y.(place := Free) else y
    ensures FreeCell(s, c).cleanCycles == if SomeLink(s.cells[c].links) then 0 else s.cleanCycles
  {
    StaleLinksDo(s, s.cells[c].links);
  }

  /** A traced target leaves the unprocessed list, or the roots unless it is locked. */
  function TracedCell(x: Cell, target: bool): Cell {
    if target && (x.place.Unproc? || (x.place.IsRoot() && !x.locked)) then x.(place := Boundary) else x
  }

  lemma {:induction false} TryMovesDo(s: State, ls: seq<Link>)
    requires AllInRange(s, ls)
    ensures TryMoveAll(s, ls).cleanCycles == s.cleanCycles
    ensures forall c :: 0 <= c < |s.cells| ==> TryMoveAll(s, ls).cells[c] == TracedCell(s.cells[c], To(c) in ls)
    decreases |ls|
  {
    if ls != [] {
      TryMovesDo(TryMove(s, ls[0]), ls[1..]);
      forall c | 0 <= c < |s.cells|
        ensures TryMoveAll(s, ls).cells[c] == TracedCell(s.cells[c], To(c) in ls)
      {
        assert TryMove(s, ls[0]).cells[c] == TracedCell(s.cells[c], ls[0] == To(c));
      }
    }
  }

  /** Scanning traces the cell's links and takes the cell to the list of what is done. */
  lemma ScanDoes(s: State, c: nat, done: Place)
    requires c < |s.cells| && AllInRange(s, s.cells[c].links)
    ensures forall x :: 0 <= x < |s.cells| ==>
      var y := TracedCell(s.cells[x], To(x) in s.cells[c].links);
      Scan(s, c, done).cells[x] == if x == c then y.(place := done) else y
    ensures Scan(s, c, done).cleanCycles == s.cleanCycles
  {
    TryMovesDo(s, s.cells[c].links);
  }

  /** A new node is an unlocked root with the given links; each of them is counted. */
  lemma NewNodeDoes(s: State, f: nat, ls: seq<Link>)
    requires f <= |s.cells| && AllInRange(s, ls) && To(f) !in ls
    ensures var t := NewNode(s, f, ls);
      && |t.cells| == (if f < |s.cells| then |s.cells| else |s.cells| + 1) && t.cleanCycles == s.cleanCycles
      && t.cells[f] == Cell(RootTodo, false, 0, ls)
      && forall x :: 0 <= x < |s.cells| && x != f ==>
           t.cells[x] == s.cells[x].(refcount := s.cells[x].refcount + multiset(ls)[To(x)],
                                     place :=
                                       if To(x) in ls && s.cells[x].place.Unproc? then Boundary
                                       else s.cells[x].place)
  {
    NewLinksDo(Request(s, f), ls);
  }

  /** Overwriting a link by itself changes no cell, but the collector may have work again. */
  lemma PatchAgain(s: State, c: nat, t: nat)
    requires c < |s.cells| && t < |s.cells| && c != t && s.cells[c].links == [To(t)]
    requires s.cells[t].refcount > 0 && !s.cells[t].place.Unproc?
    ensures Patch(s, c, 0, To(t)) == s.(cleanCycles := 0)
  {
    assert [To(t)][0 := To(t)] == [To(t)];
    assert Patch(s, c, 0, To(t)).cells == s.cells;
  }
}
