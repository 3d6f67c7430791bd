/** The invariant of the collector and its preservation by every operation. */
module Safety {
  import opened GcState
  import opened Collector

  // ----- the invariant

  /** Reference counts are exact; links on their way in or out of the heap are accounted as debt. */
  ghost predicate Exact(cells: seq<Cell>, debt: multiset<Link>) {
    forall t :: 0 <= t < |cells| ==> cells[t].refcount == InDegree(cells, t) + debt[To(t)]
  }

  predicate CellOk(c: Cell) {
    && (c.locked ==> c.place.IsRoot())
    && (c.place.Boundary? || c.place.Reachable? || c.place.Unproc? ==> c.refcount > 0)
    && (c.place.FreePending? ==> c.refcount == 0)
  }

  ghost predicate Consistent(cells: seq<Cell>) {
    forall c :: 0 <= c < |cells| ==> CellOk(cells[c])
  }

  /** Cells that have been traced never link to an unprocessed or a free cell. */
  ghost predicate Traced(cells: seq<Cell>) {
    forall a: nat, b: nat :: Edge(cells, a, b) && (cells[a].place.RootDone? || cells[a].place.Reachable?)
      ==> !cells[b].place.Unproc? && !cells[b].place.Free?
  }

  predicate Claimed(p: Place) {
    p.IsRoot() || p.Boundary? || p.Reachable?
  }

  /** k is closed under links, holds every claimed cell, and no cell that is free or about to be. */
  ghost predicate LiveSet(cells: seq<Cell>, k: set<nat>) {
    && (forall c :: c in k ==> c < |cells| && !cells[c].place.Free? && !cells[c].place.FreePending?)
    && (forall c :: 0 <= c < |cells| && Claimed(cells[c].place) ==> c in k)
    && (forall a: nat, b: nat :: a in k && Edge(cells, a, b) ==> b in k)
  }

  ghost predicate DebtInRange(s: State, debt: multiset<Link>) {
    forall t: nat :: To(t) in debt ==> t < |s.cells|
  }

  ghost predicate Inv(s: State, k: set<nat>, debt: multiset<Link>) {
    && s.cleanCycles <= 2
    && LinksInRange(s)
    && DebtInRange(s, debt)
    && Exact(s.cells, debt)
    && Consistent(s.cells)
    && Traced(s.cells)
    && LiveSet(s.cells, k)
  }

  ghost predicate Safe(s: State) {
    exists k :: Inv(s, k, multiset{})
  }

  // ----- updates of one cell that keep its links

  lemma ExactUpdate(cells: seq<Cell>, debt: multiset<Link>, c: nat, x: Cell, debt': multiset<Link>)
    requires c < |cells| && Exact(cells, debt)
    requires x.links == cells[c].links && x.place.Free? == cells[c].place.Free?
    requires x.refcount + debt[To(c)] == cells[c].refcount + debt'[To(c)]
    requires forall t: nat :: t != c ==> debt'[To(t)] == debt[To(t)]
    ensures Exact(cells[c := x], debt')
  {
    var r := cells[c := x];
    forall t | 0 <= t < |r| ensures r[t].refcount == InDegree(r, t) + debt'[To(t)] {
      InDegreeSame(cells, r, t);
    }
  }

  predicate Done(p: Place) {
    p.RootDone? || p.Reachable?
  }

  /** A cell may leave the traced lists at any time, but no cell may become unprocessed or free under them. */
  lemma TracedUpdate(cells: seq<Cell>, c: nat, x: Cell)
    requires c < |cells| && Traced(cells) && x.links == cells[c].links
    requires Done(x.place) ==> Done(cells[c].place)
    requires x.place.Unproc? || x.place.Free? ==> x.place == cells[c].place
    ensures Traced(cells[c := x])
  {
    var r := cells[c := x];
    forall a: nat, b: nat | Edge(r, a, b) && Done(r[a].place) ensures !r[b].place.Unproc? && !r[b].place.Free? {
      assert Edge(cells, a, b);
    }
  }

  lemma LiveUpdate(cells: seq<Cell>, k: set<nat>, c: nat, x: Cell)
    requires c < |cells| && LiveSet(cells, k) && x.links == cells[c].links
    requires c in k ==> !x.place.Free? && !x.place.FreePending?
    requires Claimed(x.place) ==> c in k
    ensures LiveSet(cells[c := x], k)
  {
    var r := cells[c := x];
    forall a: nat, b: nat | a in k && Edge(r, a, b) ensures b in k {
      assert Edge(cells, a, b);
    }
  }

  /** A cell without references can be given up: no other live cell links to it. */
  lemma LiveDrop(cells: seq<Cell>, k: set<nat>, c: nat, x: Cell)
    requires c < |cells| && LiveSet(cells, k) && x.links == cells[c].links
    requires !Claimed(x.place) && InDegree(cells, c) == 0
    ensures LiveSet(cells[c := x], k - {c})
  {
    var r := cells[c := x];
    forall a: nat, b: nat | a in k - {c} && Edge(r, a, b) ensures b in k - {c} {
      assert Edge(cells, a, b);
      if b == c {
        LinkedHasInDegree(cells, a, b);
      }
    }
  }

  lemma NewLinkKeeps(s: State, k: set<nat>, debt: multiset<Link>, l: Link)
    requires Inv(s, k, debt) && (l.To? ==> l.id in k)
    ensures InRange(s, l)
    ensures Inv(NewLink(s, l), k, debt + multiset{l})
  {
    if l.To? {
      var x := NewLink(s, l).cells[l.id];
      ExactUpdate(s.cells, debt, l.id, x, debt + multiset{l});
      TracedUpdate(s.cells, l.id, x);
      LiveUpdate(s.cells, k, l.id, x);
    } else {
      assert forall t: nat :: (debt + multiset{l})[To(t)] == debt[To(t)];
    }
  }

  /** Dropping a counted link to cell t: what its cell becomes, and what is live afterwards. */
  lemma DropLinkKeeps(s: State, k: set<nat>, more: multiset<Link>, t: nat, debt: multiset<Link>) returns (k': set<nat>)
    requires Inv(s, k, more) && t < |s.cells| && more[To(t)] == debt[To(t)] + 1
    requires forall u: nat :: u != t ==> debt[To(u)] == more[To(u)]
    ensures s.cells[t].refcount > 0
    ensures k' <= k && Inv(StaleLink(s, To(t)), k', debt)
  {
    var x := StaleLink(s, To(t)).cells[t];
    ExactUpdate(s.cells, more, t, x, debt);
    TracedUpdate(s.cells, t, x);
    if x.place.FreePending? {
      LiveDrop(s.cells, k, t, x);
      k' := k - {t};
    } else {
      LiveUpdate(s.cells, k, t, x);
      k' := k;
    }
    forall u: nat | To(u) in debt ensures u < |s.cells| {
      assert u == t || To(u) in more;
    }
  }

  /** The assertion in advise_stale_link can not fire; a cell that is given up leaves the live set. */
  lemma StaleLinkKeeps(s: State, k: set<nat>, debt: multiset<Link>, l: Link) returns (k': set<nat>)
    requires Inv(s, k, debt + multiset{l})
    ensures InRange(s, l)
    ensures l.To? ==> s.cells[l.id].refcount > 0
    ensures k' <= k && Inv(StaleLink(s, l), k', debt)
  {
    var more := debt + multiset{l};
    assert l in more;
    assert forall t: nat :: To(t) in debt ==> To(t) in more;
    assert forall t: nat :: To(t) != l ==> debt[To(t)] == more[To(t)];
    if l.To? {
      k' := DropLinkKeeps(s, k, more, l.id, debt);
    } else {
      k' := k;
    }
  }

  /** Every target of the links is a live cell. */
  ghost predicate AllLive(k: set<nat>, ls: seq<Link>) {
    forall i :: 0 <= i < |ls| && ls[i].To? ==> ls[i].id in k
  }

  lemma {:induction false} NewLinkAllKeeps(s: State, k: set<nat>, debt: multiset<Link>, ls: seq<Link>)
    requires Inv(s, k, debt) && AllLive(k, ls)
    ensures AllInRange(s, ls)
    ensures Inv(NewLinkAll(s, ls), k, debt + multiset(ls))
    decreases |ls|
  {
    hide Inv;
    if ls == [] {
      assert debt + multiset(ls) == debt;
    } else {
      NewLinkKeeps(s, k, debt, ls[0]);
      NewLinkAllKeeps(NewLink(s, ls[0]), k, debt + multiset{ls[0]}, ls[1..]);
      assert ls == [ls[0]] + ls[1..];
      assert debt + multiset(ls) == debt + multiset{ls[0]} + multiset(ls[1..]);
    }
  }

  /** Advising new links only ever takes cells out of the unprocessed list, their targets among them. */
  lemma {:induction false} NewLinkAllEffect(s: State, ls: seq<Link>)
    requires AllInRange(s, ls)
    ensures forall i :: 0 <= i < |ls| && ls[i].To? ==> !NewLinkAll(s, ls).cells[ls[i].id].place.Unproc?
    ensures forall c :: 0 <= c < |s.cells| ==>
      var p := NewLinkAll(s, ls).cells[c].place;
      p == s.cells[c].place || (s.cells[c].place.Unproc? && p.Boundary?)
    decreases |ls|
  {
    if ls != [] {
      NewLinkAllEffect(NewLink(s, ls[0]), ls[1..]);
    }
  }

  lemma {:induction false} StaleLinkAllKeeps(s: State, k: set<nat>, debt: multiset<Link>, ls: seq<Link>)
    returns (k': set<nat>)
    requires Inv(s, k, debt + multiset(ls))
    ensures AllInRange(s, ls)
    ensures k' <= k && Inv(StaleLinkAll(s, ls), k', debt)
    decreases |ls|
  {
    if ls == [] {
      k' := k;
      assert debt + multiset(ls) == debt;
    } else {
      assert ls == [ls[0]] + ls[1..];
      assert debt + multiset(ls) == (debt + multiset(ls[1..])) + multiset{ls[0]};
      k' := StaleLinkKeeps(s, k, debt + multiset(ls[1..]), ls[0]);
      k' := StaleLinkAllKeeps(StaleLink(s, ls[0]), k', debt, ls[1..]);
    }
  }

  // ----- freeing a cell

  lemma {:induction false} FreeingCommutes(s: State, c: nat, ls: seq<Link>)
    requires c < |s.cells| && AllInRange(s, ls)
    ensures SetPlace(StaleLinkAll(s, ls), c, Free) == StaleLinkAll(SetPlace(s, c, Free), ls)
    decreases |ls|
  {
    if ls != [] {
      FreeingCommutes(StaleLink(s, ls[0]), c, ls[1..]);
      assert SetPlace(StaleLink(s, ls[0]), c, Free) == StaleLink(SetPlace(s, c, Free), ls[0]);
    }
  }

  /** A cell outside the live set that no traced cell links to may go; its links become debt. */
  lemma MarkFreeKeeps(s: State, k: set<nat>, c: nat)
    requires Inv(s, k, multiset{}) && c < |s.cells| && c !in k && !s.cells[c].place.Free?
    requires forall a: nat :: Edge(s.cells, a, c) ==> !Done(s.cells[a].place)
    ensures Inv(SetPlace(s, c, Free), k, multiset(s.cells[c].links))
  {
    var x := s.cells[c].(place := Free);
    var r := s.cells[c := x];
    var debt := multiset(s.cells[c].links);
    forall t | 0 <= t < |r| ensures r[t].refcount == InDegree(r, t) + debt[To(t)] {
      InDegreeUpdate(s.cells, c, x, t);
    }
    forall a: nat, b: nat | Edge(r, a, b) ensures Done(r[a].place) ==> !r[b].place.Unproc? && !r[b].place.Free? {
      assert Edge(s.cells, a, b);
    }
    LiveUpdate(s.cells, k, c, x);
    forall t: nat | To(t) in debt ensures t < |r| {
      assert AllInRange(s, s.cells[c].links);
    }
  }

  lemma FreeCellKeeps(s: State, k: set<nat>, c: nat) returns (k': set<nat>)
    requires Inv(s, k, multiset{}) && c < |s.cells| && c !in k && !s.cells[c].place.Free?
    requires forall a: nat :: Edge(s.cells, a, c) ==> !Done(s.cells[a].place)
    ensures k' <= k && Inv(FreeCell(s, c), k', multiset{})
  {
    var ls := s.cells[c].links;
    MarkFreeKeeps(s, k, c);
    FreeingCommutes(s, c, ls);
    assert multiset{} + multiset(ls) == multiset(ls);
    k' := StaleLinkAllKeeps(SetPlace(s, c, Free), k, multiset{}, ls);
  }

  /** A cell whose count dropped to zero is not linked from anywhere. */
  lemma PendingUnlinked(s: State, k: set<nat>, c: nat)
    requires Inv(s, k, multiset{}) && Is(s, c, FreePending)
    ensures c !in k
    ensures forall a: nat :: Edge(s.cells, a, c) ==> s.cells[a].place.Free?
  {
    forall a: nat | Edge(s.cells, a, c) ensures s.cells[a].place.Free? {
      if !s.cells[a].place.Free? {
        LinkedHasInDegree(s.cells, a, c);
      }
    }
  }

  /** When tracing has run out of work, the traced cells alone are a live set. */
  lemma TracedAreLive(s: State, k: set<nat>) returns (k': set<nat>)
    requires Inv(s, k, multiset{})
    requires NoneOn(s, FreePending) && NoneOn(s, Boundary) && NoneOn(s, RootTodo)
    ensures Inv(s, k', multiset{})
    ensures forall c :: c in k' <==> 0 <= c < |s.cells| && Done(s.cells[c].place)
  {
    k' := set c: nat | c < |s.cells| && Done(s.cells[c].place);
    forall a: nat, b: nat | a in k' && Edge(s.cells, a, b) ensures b in k' {
      assert Done(s.cells[a].place);
    }
  }

  // ----- tracing a cell

  lemma TryMoveKeeps(s: State, k: set<nat>, l: Link)
    requires Inv(s, k, multiset{})
    requires l.To? ==> l.id in k && s.cells[l.id].refcount > 0
    ensures InRange(s, l)
    ensures Inv(TryMove(s, l), k, multiset{})
  {
    if l.To? {
      var x := TryMove(s, l).cells[l.id];
      ExactUpdate(s.cells, multiset{}, l.id, x, multiset{});
      TracedUpdate(s.cells, l.id, x);
      LiveUpdate(s.cells, k, l.id, x);
    }
  }

  /** Tracing a cell's link may change the place of its target, and nothing else. */
  ghost predicate PlaceMoved(x: Cell, y: Cell, targeted: bool) {
    && y == x.(place := y.place)
    && (y.place == x.place ||
        (targeted && y.place.Boundary? && (x.place.Unproc? || (x.place.IsRoot() && !x.locked))))
  }

  lemma {:induction false} TryMoveAllEffect(s: State, ls: seq<Link>)
    requires AllInRange(s, ls)
    ensures TryMoveAll(s, ls).cleanCycles == s.cleanCycles
    ensures forall c :: 0 <= c < |s.cells| ==> PlaceMoved(s.cells[c], TryMoveAll(s, ls).cells[c], To(c) in ls)
    ensures forall i :: 0 <= i < |ls| && ls[i].To? ==> !TryMoveAll(s, ls).cells[ls[i].id].place.Unproc?
    decreases |ls|
  {
    if ls != [] {
      var m := TryMove(s, ls[0]);
      TryMoveAllEffect(m, ls[1..]);
      forall c | 0 <= c < |s.cells| ensures PlaceMoved(s.cells[c], TryMoveAll(s, ls).cells[c], To(c) in ls) {
        assert PlaceMoved(s.cells[c], m.cells[c], To(c) == ls[0]);
        assert PlaceMoved(m.cells[c], TryMoveAll(s, ls).cells[c], To(c) in ls[1..]);
      }
    }
  }

  /** The links all lead to live, referenced cells. */
  ghost predicate Traceable(s: State, k: set<nat>, ls: seq<Link>) {
    && AllInRange(s, ls)
    && AllLive(k, ls)
    && forall i :: 0 <= i < |ls| && ls[i].To? ==> s.cells[ls[i].id].refcount > 0
  }

  lemma {:induction false} TryMoveAllKeeps(s: State, k: set<nat>, ls: seq<Link>)
    requires Inv(s, k, multiset{}) && Traceable(s, k, ls)
    ensures Inv(TryMoveAll(s, ls), k, multiset{})
    decreases |ls|
  {
    if ls != [] {
      TryMoveKeeps(s, k, ls[0]);
      TryMoveAllKeeps(TryMove(s, ls[0]), k, ls[1..]);
    }
  }

  lemma LiveLinks(s: State, k: set<nat>, c: nat)
    requires Inv(s, k, multiset{}) && c in k
    ensures Traceable(s, k, s.cells[c].links)
  {
    var ls := s.cells[c].links;
    assert AllInRange(s, ls);
    forall i | 0 <= i < |ls| && ls[i].To? ensures ls[i].id in k && s.cells[ls[i].id].refcount > 0 {
      assert Edge(s.cells, c, ls[i].id);
      LinkedHasInDegree(s.cells, c, ls[i].id);
    }
  }

  /** A cell whose links lead to live cells that have been processed may join the traced lists. */
  lemma TracedJoin(cells: seq<Cell>, k: set<nat>, c: nat, done: Place)
    requires c < |cells| && Traced(cells) && LiveSet(cells, k) && c in k && Done(done)
    requires forall b: nat :: Edge(cells, c, b) ==> !cells[b].place.Unproc?
    ensures Traced(cells[c := cells[c].(place := done)])
  {
    var r := cells[c := cells[c].(place := done)];
    forall a: nat, b: nat | Edge(r, a, b) && Done(r[a].place) ensures !r[b].place.Unproc? && !r[b].place.Free? {
      assert Edge(cells, a, b);
    }
  }

  /** None of the assertions in the tracing callback can fire, and the traced cell is done with. */
  lemma ScanKeeps(s: State, k: set<nat>, c: nat, done: Place)
    requires Inv(s, k, multiset{}) && c < |s.cells|
    requires (s.cells[c].place.Boundary? && done.Reachable?) || (s.cells[c].place.RootTodo? && done.RootDone?)
    ensures AllInRange(s, s.cells[c].links)
    ensures Inv(Scan(s, c, done), k, multiset{})
  {
    var ls := s.cells[c].links;
    LiveLinks(s, k, c);
    TryMoveAllKeeps(s, k, ls);
    TryMoveAllEffect(s, ls);
    var m := TryMoveAll(s, ls);
    var x := m.cells[c].(place := done);
    assert PlaceMoved(s.cells[c], m.cells[c], To(c) in ls);
    ScanFinish(m, k, c, x);
  }

  lemma ScanFinish(m: State, k: set<nat>, c: nat, x: Cell)
    requires Inv(m, k, multiset{}) && c < |m.cells| && c in k
    requires x == m.cells[c].(place := x.place) && Done(x.place) && CellOk(x)
    requires forall i ::
      0 <= i < |x.links| && x.links[i].To? && x.links[i].id < |m.cells| ==> !m.cells[x.links[i].id].place.Unproc?
    ensures Inv(m.(cells := m.cells[c := x]), k, multiset{})
  {
    ExactUpdate(m.cells, multiset{}, c, x, multiset{});
    LiveUpdate(m.cells, k, c, x);
    TracedJoin(m.cells, k, c, x.place);
  }

  // ----- the end of a cycle

  /** When tracing and sweeping have run out of work, every free cell is unreferenced. */
  lemma FreeAreClean(s: State, k: set<nat>)
    requires Inv(s, k, multiset{}) && Enabled(s, Swap)
    ensures forall c :: 0 <= c < |s.cells| && s.cells[c].place.Free? ==> s.cells[c].refcount == 0
    ensures forall a: nat, b: nat :: Edge(s.cells, a, b) && !s.cells[a].place.Free? ==> !s.cells[b].place.Free?
  {
    forall c | 0 <= c < |s.cells| && s.cells[c].place.Free? ensures s.cells[c].refcount == 0 {
      if s.cells[c].refcount > 0 {
        var a := InDegreeHasSource(s.cells, c);
        assert Edge(s.cells, a, c);
      }
    }
  }

  lemma SwapExact(s: State)
    requires Exact(s.cells, multiset{})
    ensures Exact(SwapAll(s).cells, multiset{})
  {
    var r := SwapAll(s).cells;
    forall t | 0 <= t < |r| ensures r[t].refcount == InDegree(r, t) {
      InDegreeSame(s.cells, r, t);
    }
  }

  lemma SwapLive(s: State, k: set<nat>)
    requires LiveSet(s.cells, k) && Enabled(s, Swap)
    requires forall c :: c in k <==> 0 <= c < |s.cells| && Done(s.cells[c].place)
    ensures Traced(SwapAll(s).cells) && LiveSet(SwapAll(s).cells, k)
  {
    var r := SwapAll(s).cells;
    forall a: nat, b: nat | a in k && Edge(r, a, b) ensures b in k {
      assert Edge(s.cells, a, b);
    }
    assert forall a: nat :: a < |r| ==> !Done(r[a].place);
  }

  lemma SwapKeeps(s: State, k: set<nat>) returns (k': set<nat>)
    requires Inv(s, k, multiset{}) && Enabled(s, Swap)
    ensures Inv(SwapAll(s), k', multiset{})
  {
    k' := TracedAreLive(s, k);
    SwapExact(s);
    SwapLive(s, k');
    forall c | 0 <= c < |s.cells| ensures AllInRange(SwapAll(s), SwapAll(s).cells[c].links) {
      assert AllInRange(s, s.cells[c].links);
    }
  }
}
