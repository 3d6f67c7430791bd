/** Why none of the memory manager's own assertions can fire. */
module Asserts {
  import opened GcState
  import opened Collector
  import opened Safety
  import opened Mutator
  import opened Runs

  /** What advise_new_link asserts of its argument. */
  predicate InUse(s: State, l: Link) {
    InRange(s, l) && (l.To? ==> s.cells[l.id].place != Free && s.cells[l.id].place != FreePending)
  }

  predicate AllInUse(s: State, ls: seq<Link>) {
    AllInRange(s, ls) && forall i :: 0 <= i < |ls| ==> InUse(s, ls[i])
  }

  /** What advise_stale_link asserts of its argument. */
  predicate Droppable(s: State, l: Link) {
    InRange(s, l) && (l.To? && s.cells[l.id].refcount == 0 ==> s.cells[l.id].place in {Free, FreePending})
  }

  lemma LinkIsInUse(s: State, l: Link)
    requires Safe(s) && InRange(s, l) && LinkReached(s, l)
    ensures InUse(s, l)
  {
    if l.To? {
      SafeProtectsReached(s, l.id);
    }
  }

  lemma NewNodeAsserts(s: State, c: nat, ls: seq<Link>)
    requires Safe(s) && Allowed(s, OpNew(c, ls))
    ensures AllInUse(Request(s, c), ls)
  {
    forall i | 0 <= i < |ls| ensures InUse(Request(s, c), ls[i]) {
      assert LinkReached(s, ls[i]);
      LinkIsInUse(s, ls[i]);
    }
  }

  lemma PatchAsserts(s: State, c: nat, i: nat, l: Link)
    requires Safe(s) && Allowed(s, OpPatch(c, i, l))
    ensures InUse(s, l)
    ensures Droppable(SetLinks(NewLink(s, l), c, s.cells[c].links[i := l]), s.cells[c].links[i])
  {
    var k :| Inv(s, k, multiset{});
    LinkIsInUse(s, l);
    ReachedIsLive(s, k, c);
    if l.To? {
      ReachedIsLive(s, k, l.id);
    }
    NewLinkKeeps(s, k, multiset{}, l);
    PatchStore(NewLink(s, l), k, c, i, l);
    var k' := StaleLinkKeeps(SetLinks(NewLink(s, l), c, s.cells[c].links[i := l]), k, multiset{}, s.cells[c].links[i]);
  }

  /** memory_request asserts that the cell it takes off the free list is not locked. */
  lemma ReuseAsserts(s: State, c: nat)
    requires Safe(s) && Is(s, c, Free)
    ensures !s.cells[c].locked
  {
  }

  ghost predicate DroppableAll(s: State, ls: seq<Link>)
    decreases |ls|
  {
    AllInRange(s, ls) && (ls != [] ==> Droppable(s, ls[0]) && DroppableAll(StaleLink(s, ls[0]), ls[1..]))
  }

  predicate TracedLinkOk(s: State, l: Link) {
    InUse(s, l) && (l.To? ==> s.cells[l.id].refcount > 0)
  }

  ghost predicate TraceableAll(s: State, ls: seq<Link>)
    decreases |ls|
  {
    AllInRange(s, ls) && (ls != [] ==> TracedLinkOk(s, ls[0]) && TraceableAll(TryMove(s, ls[0]), ls[1..]))
  }

  lemma StaleHidden(s: State, c: nat, k: set<nat>, ls: seq<Link>) returns (k': set<nat>)
    requires c < |s.cells| && ls != [] && Inv(SetPlace(s, c, Free), k, multiset{} + multiset(ls))
    ensures Droppable(s, ls[0])
    ensures Inv(SetPlace(StaleLink(s, ls[0]), c, Free), k', multiset{} + multiset(ls[1..]))
  {
    hide Inv;
    var h := SetPlace(s, c, Free);
    assert ls == [ls[0]] + ls[1..];
    assert multiset{} + multiset(ls) == (multiset{} + multiset(ls[1..])) + multiset{ls[0]};
    k' := StaleLinkKeeps(h, k, multiset{} + multiset(ls[1..]), ls[0]);
    assert SetPlace(StaleLink(s, ls[0]), c, Free) == StaleLink(h, ls[0]);
  }

  lemma {:induction false} HiddenDroppable(s: State, c: nat, k: set<nat>, ls: seq<Link>)
    requires c < |s.cells| && Inv(SetPlace(s, c, Free), k, multiset{} + multiset(ls))
    requires AllInRange(s, ls)
    ensures DroppableAll(s, ls)
    decreases |ls|
  {
    if ls != [] {
      var k' := StaleHidden(s, c, k, ls);
      HiddenDroppable(StaleLink(s, ls[0]), c, k', ls[1..]);
    }
  }

  /** The assertions on the way to freeing a cell hold: it is not locked, every link it drops is counted. */
  lemma FreeAsserts(s: State, ph: Phase)
    requires Safe(s) && Enabled(s, ph) && (ph.FreeOne? || ph.Sweep?)
    ensures !s.cells[ph.c].locked && (ph.FreeOne? ==> s.cells[ph.c].refcount == 0)
    ensures DroppableAll(s, s.cells[ph.c].links)
    ensures var r := StaleLinkAll(s, s.cells[ph.c].links); !r.cells[ph.c].place.Free?
  {
    var k :| Inv(s, k, multiset{});
    assert CellOk(s.cells[ph.c]);
    if ph.FreeOne? {
      PendingUnlinked(s, k, ph.c);
    } else {
      k := TracedAreLive(s, k);
    }
    var ls := s.cells[ph.c].links;
    MarkFreeKeeps(s, k, ph.c);
    assert multiset{} + multiset(ls) == multiset(ls);
    HiddenDroppable(s, ph.c, k, ls);
    StaleLinkAllEffect(s, ls);
  }

  lemma {:induction false} LiveTraceable(s: State, k: set<nat>, ls: seq<Link>)
    requires Inv(s, k, multiset{}) && Traceable(s, k, ls)
    ensures TraceableAll(s, ls)
    decreases |ls|
  {
    if ls != [] {
      TryMoveKeeps(s, k, ls[0]);
      LiveTraceable(TryMove(s, ls[0]), k, ls[1..]);
    }
  }

  /** The assertions on the way to tracing a cell hold. */
  lemma ScanAsserts(s: State, ph: Phase)
    requires Safe(s) && Enabled(s, ph) && (ph.ScanBoundary? || ph.ScanRoot?)
    ensures ph.ScanBoundary? ==> !s.cells[ph.c].locked && s.cells[ph.c].refcount > 0
    ensures TraceableAll(s, s.cells[ph.c].links)
    ensures !TryMoveAll(s, s.cells[ph.c].links).cells[ph.c].place.Free?
  {
    var k :| Inv(s, k, multiset{});
    var ls := s.cells[ph.c].links;
    assert CellOk(s.cells[ph.c]);
    LiveLinks(s, k, ph.c);
    LiveTraceable(s, k, ls);
    TryMoveAllEffect(s, ls);
    assert PlaceMoved(s.cells[ph.c], TryMoveAll(s, ls).cells[ph.c], To(ph.c) in ls);
  }
}
