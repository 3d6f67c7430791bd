/** What a dirty reuse leads to: however it came about, allowed operations can follow it after which the
    collector is about to free a cell that a locked root links to. */
module Loss {
  import opened GcState
  import opened Collector
  import opened Safety
  import opened Runs
  import opened Cycles

  /** The locked root g links to f, whose one counted link is that one, while the unreachable cell c links to f
      too. Nothing in the set k, where all tracing stays, leads to c. */
  ghost predicate Doomed(s: State, k: set<nat>, g: nat, f: nat, c: nat) {
    && LinksInRange(s) && s.cleanCycles == 0
    && g < |s.cells| && s.cells[g].locked && s.cells[g].place.IsRoot() && To(f) in s.cells[g].links
    && f < |s.cells| && !s.cells[f].locked && s.cells[f].refcount == 1
    && !s.cells[f].place.Free? && !s.cells[f].place.FreePending?
    && c < |s.cells| && !s.cells[c].locked && s.cells[c].place in {Unproc, FreePending} && To(f) in s.cells[c].links
    && c !in k
    && (forall x :: 0 <= x < |s.cells| && Claimed(s.cells[x].place) ==> x in k)
    && (forall a: nat, b: nat :: a in k && Edge(s.cells, a, b) ==> b in k)
  }

  /** The cell f awaits freeing although the locked root g links to it. */
  ghost predicate Lost(s: State, g: nat, f: nat) {
    && g < |s.cells| && s.cells[g].locked && To(f) in s.cells[g].links
    && Is(s, f, FreePending)
  }

  lemma LostIsReached(s: State, g: nat, f: nat)
    requires Lost(s, g, f)
    ensures ReachedFromLocked(s, f)
  {
    assert Edge(s.cells, g, f);
    assert PathFromTo(s.cells, [g, f], g, f);
  }

  /** Freeing another cell either takes away f's last counted link, or leaves the cell f doomed. */
  lemma FreeingDooms(s: State, k: set<nat>, g: nat, f: nat, c: nat, x: nat, ph: Phase)
    requires Doomed(s, k, g, f, c) && Enabled(s, ph) && x < |s.cells| && x != f && x != g
    requires ph == FreeOne(x) || (ph == Sweep(x) && x == c)
    ensures Lost(Collect(s, ph), g, f) || Doomed(Collect(s, ph), k, g, f, c)
    ensures x == c ==> Lost(Collect(s, ph), g, f)
  {
    FreeCellDoes(s, x);
    StepKeepsClean(s, ph);
    var ls := s.cells[x].links;
    var t := Collect(s, ph);
    if To(f) in ls {
      assert t.cells[f] == Dropped(s.cells[f], multiset(ls)[To(f)]);
    } else {
      assert multiset(ls)[To(f)] == 0;
      assert forall a: nat, b: nat :: Edge(t.cells, a, b) ==> Edge(s.cells, a, b);
    }
  }

  /** Tracing stays within k. */
  lemma ScanningDooms(s: State, k: set<nat>, g: nat, f: nat, c: nat, x: nat, ph: Phase)
    requires Doomed(s, k, g, f, c) && Enabled(s, ph) && ph in {ScanBoundary(x), ScanRoot(x)}
    ensures Doomed(Collect(s, ph), k, g, f, c)
  {
    ScanDoes(s, x, if ph.ScanRoot? then RootDone else Reachable);
    var ls := s.cells[x].links;
    var t := Collect(s, ph);
    assert x in k;
    forall y: nat | y < |s.cells| && To(y) in ls
      ensures y in k
    {
      assert Edge(s.cells, x, y);
    }
    assert forall a: nat, b: nat :: Edge(t.cells, a, b) ==> Edge(s.cells, a, b);
  }

  /** Some collector step is possible, and none prevents the loss. */
  lemma DoomedStep(s: State, k: set<nat>, g: nat, f: nat, c: nat) returns (ph: Phase)
    requires Doomed(s, k, g, f, c)
    ensures Enabled(s, ph) && !ph.Final()
    ensures Lost(Collect(s, ph), g, f) || Doomed(Collect(s, ph), k, g, f, c)
  {
    if x :| 0 <= x < |s.cells| && s.cells[x].place.FreePending? {
      ph := FreeOne(x);
      FreeingDooms(s, k, g, f, c, x, ph);
    } else if x :| 0 <= x < |s.cells| && s.cells[x].place.Boundary? {
      ph := ScanBoundary(x);
      ScanningDooms(s, k, g, f, c, x, ph);
    } else if x :| 0 <= x < |s.cells| && s.cells[x].place.RootTodo? {
      ph := ScanRoot(x);
      ScanningDooms(s, k, g, f, c, x, ph);
    } else {
      ph := Sweep(c);
      FreeingDooms(s, k, g, f, c, c, ph);
    }
  }

  // ----- as a run

  /** The longer run begins with the shorter one. */
  predicate Extends(longer: Run, shorter: Run) {
    longer == shorter || (longer.Then? && Extends(longer.run, shorter))
  }

  lemma Extend(start: Run, run: Run, op: Op) returns (next: Run)
    requires IsRun(run) && Extends(run, start) && Allowed(Last(run), op)
    ensures IsRun(next) && Extends(next, start) && Last(next) == Apply(Last(run), op)
  {
    next := Then(run, op, Apply(Last(run), op));
  }

  lemma {:induction false} DoomedLoses(start: Run, run: Run, k: set<nat>, g: nat, f: nat, c: nat) returns (end: Run)
    requires IsRun(run) && Extends(run, start) && Doomed(Last(run), k, g, f, c)
    ensures IsRun(end) && Extends(end, start) && Lost(Last(end), g, f)
    decreases Weight(Last(run))
  {
    var s := Last(run);
    var ph := DoomedStep(s, k, g, f, c);
    StepDropsWeight(s, ph);
    hide Doomed, Lost, IsRun, Extends, Weight, Collect;
    var next := Extend(start, run, OpCollect(ph));
    if Lost(Last(next), g, f) {
      end := next;
    } else {
      end := DoomedLoses(start, next, k, g, f, c);
    }
  }

  // ----- setting it up

  /** A dirty reuse: the cell f has just been handed out again, with no count, although c links to it. */
  ghost predicate Reused(t: State, k: set<nat>, f: nat, c: nat) {
    && LinksInRange(t)
    && f < |t.cells| && t.cells[f].place.RootTodo? && !t.cells[f].locked && t.cells[f].refcount == 0
    && c < |t.cells| && c != f && !t.cells[c].locked && t.cells[c].place in {Unproc, FreePending}
    && To(f) in t.cells[c].links && c !in k
    && (forall x :: 0 <= x < |t.cells| && Claimed(t.cells[x].place) ==> x in k)
    && (forall a: nat, b: nat :: a in k && Edge(t.cells, a, b) ==> b in k)
    && (forall x :: x in k ==> x < |t.cells| && !t.cells[x].place.Free?)
  }

  /** An unreachable cell that still links to the free cell f. */
  lemma GarbageSource(s: State, f: nat, ls: seq<Link>) returns (live: set<nat>, c: nat)
    requires Safe(s) && Is(s, f, Free) && s.cells[f].refcount > 0
    requires forall l :: l in ls ==> LinkReached(s, l)
    ensures LinksInRange(s) && LiveSet(s.cells, live) && AllLive(live, ls) && f !in live && c !in live
    ensures c < |s.cells| && c != f && !s.cells[c].locked && s.cells[c].place in {Unproc, FreePending}
    ensures To(f) in s.cells[c].links && To(f) !in ls && To(c) !in ls
  {
    hide Reached;
    live :| Inv(s, live, multiset{});
    LinksLive(s, live, ls);
    c := InDegreeHasSource(s.cells, f);
    assert Edge(s.cells, c, f) && CellOk(s.cells[c]);
  }

  lemma ReuseIsDirty(s: State, f: nat, ls: seq<Link>) returns (k: set<nat>, c: nat)
    requires Safe(s) && Is(s, f, Free) && s.cells[f].refcount > 0
    requires AllInRange(s, ls) && forall l :: l in ls ==> LinkReached(s, l)
    ensures Reused(NewNode(s, f, ls), k, f, c)
  {
    hide Safe, LiveSet, LinkReached, NewNode, AllLive;
    var live;
    live, c := GarbageSource(s, f, ls);
    k := live + {f};
    NewNodeDoes(s, f, ls);
    var t := NewNode(s, f, ls);
    ReusedClosed(s, t, live, f, ls);
    ReusedClaimed(s, t, live, f, ls);
    assert t.cells[c] == s.cells[c];
  }

  lemma ReusedClosed(s: State, t: State, live: set<nat>, f: nat, ls: seq<Link>)
    requires |t.cells| == |s.cells| && f < |s.cells| && LinksInRange(s) && AllInRange(s, ls)
    requires forall x :: 0 <= x < |s.cells| && x != f ==> t.cells[x].links == s.cells[x].links
    requires t.cells[f].links == ls && AllLive(live, ls) && LiveSet(s.cells, live) && f !in live
    ensures LinksInRange(t) && forall a: nat, b: nat :: a in live + {f} && Edge(t.cells, a, b) ==> b in live + {f}
  {
    forall a: nat, b: nat | a in live + {f} && Edge(t.cells, a, b)
      ensures b in live + {f}
    {
      if a != f {
        assert Edge(s.cells, a, b);
      }
    }
    forall x | 0 <= x < |t.cells|
      ensures AllInRange(t, t.cells[x].links)
    {
      assert AllInRange(s, s.cells[x].links);
    }
  }

  lemma ReusedClaimed(s: State, t: State, live: set<nat>, f: nat, ls: seq<Link>)
    requires f < |s.cells| && AllInRange(s, ls) && t == NewNode(s, f, ls)
    requires LiveSet(s.cells, live) && AllLive(live, ls) && To(f) !in ls
    ensures forall x :: 0 <= x < |t.cells| && Claimed(t.cells[x].place) ==> x in live + {f}
    ensures forall x :: x in live ==> x < |t.cells| && !t.cells[x].place.Free?
  {
    NewNodeDoes(s, f, ls);
  }

  /** A new root that links to f. */
  lemma NewRoot(t: State, k: set<nat>, f: nat, c: nat, g: nat)
    requires Reused(t, k, f, c) && Available(t, g)
    ensures g != f && g != c && g !in k && Allowed(t, OpNew(g, [To(f)]))
    ensures var u := Apply(t, OpNew(g, [To(f)]));
      && |u.cells| == (if g < |t.cells| then |t.cells| else g + 1) && g <= |t.cells|
      && u.cells[g] == Cell(RootTodo, false, 0, [To(f)]) && u.cells[f] == t.cells[f].(refcount := 1)
      && forall x :: 0 <= x < |t.cells| && x != f && x != g ==> u.cells[x] == t.cells[x]
  {
    RootReached(t, f);
    hide Reached;
    NewNodeDoes(t, g, [To(f)]);
  }

  /** It is locked, and its link is stored once more so that the collector wakes up. */
  lemma LockAndPatch(u: State, g: nat, f: nat)
    requires LinksInRange(u) && g < |u.cells| && u.cells[g] == Cell(RootTodo, false, 0, [To(f)])
    requires f < |u.cells| && f != g && u.cells[f].place.RootTodo? && u.cells[f].refcount == 1
    ensures Allowed(u, OpLock(g)) && var v := Apply(u, OpLock(g));
      && Allowed(v, OpPatch(g, 0, To(f)))
      && Apply(v, OpPatch(g, 0, To(f))) == State(u.cells[g := Cell(RootTodo, true, 0, [To(f)])], 0)
  {
    RootReached(u, g);
    var v := Lock(u, g);
    RootReached(v, g);
    RootReached(v, f);
    hide Reached;
    assert forall x :: 0 <= x < |u.cells| ==> v.cells[x].links == u.cells[x].links;
    SameLinksInRange(u, v);
    PatchAgain(v, g, f);
  }

  lemma SameLinksInRange(u: State, v: State)
    requires LinksInRange(u) && |u.cells| == |v.cells|
    requires forall x :: 0 <= x < |u.cells| ==> v.cells[x].links == u.cells[x].links
    ensures LinksInRange(v)
  {
    forall x | 0 <= x < |v.cells|
      ensures AllInRange(v, v.cells[x].links)
    {
      assert AllInRange(u, u.cells[x].links);
    }
  }

  lemma Prepare(t: State, k: set<nat>, f: nat, c: nat, g: nat)
    requires Reused(t, k, f, c) && Available(t, g)
    ensures Allowed(t, OpNew(g, [To(f)])) && var u := Apply(t, OpNew(g, [To(f)]));
      && Allowed(u, OpLock(g)) && var v := Apply(u, OpLock(g));
      && Allowed(v, OpPatch(g, 0, To(f)))
      && Doomed(Apply(v, OpPatch(g, 0, To(f))), k + {g}, g, f, c)
  {
    hide Allowed, Available, Apply;
    NewRoot(t, k, f, c, g);
    var u := Apply(t, OpNew(g, [To(f)]));
    PreparedClosed(t, u, k, f, g);
    LockAndPatch(u, g, f);
    var w := State(u.cells[g := Cell(RootTodo, true, 0, [To(f)])], 0);
    PreparedClosed(t, w, k, f, g);
  }

  lemma PreparedClosed(t: State, w: State, k: set<nat>, f: nat, g: nat)
    requires |t.cells| <= |w.cells| <= |t.cells| + 1 && g < |w.cells| && f < |t.cells| && f != g && f in k && g !in k
    requires forall x :: 0 <= x < |t.cells| && x != g ==> w.cells[x].links == t.cells[x].links
    requires w.cells[g].links == [To(f)] && |w.cells| <= (if g < |t.cells| then |t.cells| else g + 1)
    requires LinksInRange(t) && forall a: nat, b: nat :: a in k && Edge(t.cells, a, b) ==> b in k
    requires forall x :: x in k ==> x < |t.cells|
    ensures LinksInRange(w) && forall a: nat, b: nat :: a in k + {g} && Edge(w.cells, a, b) ==> b in k + {g}
  {
    forall x | 0 <= x < |w.cells|
      ensures AllInRange(w, w.cells[x].links)
    {
      assert x != g ==> AllInRange(t, t.cells[x].links);
    }
    forall a: nat, b: nat | a in k + {g} && Edge(w.cells, a, b)
      ensures b in k + {g}
    {
      if a != g {
        assert InRange(t, To(b)) by { assert AllInRange(t, t.cells[a].links); }
        assert Edge(t.cells, a, b);
      }
    }
  }

  lemma SomeCell(s: State) returns (g: nat)
    ensures Available(s, g)
  {
    if x :| 0 <= x < |s.cells| && s.cells[x].place == Free {
      g := x;
    } else {
      g := |s.cells|;
    }
  }

  /** Every dirty reuse can lose a cell: a safe run in which a cell is handed out that still counts links has a
      continuation by allowed operations after which that cell awaits freeing while a locked root reaches it. */
  lemma DirtyReuseLoses(run: Run, op: Op) returns (end: Run)
    requires IsRun(run) && Safe(Last(run)) && Allowed(Last(run), op) && !ReuseClean(Last(run), op)
    ensures IsRun(end) && Extends(end, Then(run, op, Apply(Last(run), op)))
    ensures ReachedFromLocked(Last(end), op.f) && Is(Last(end), op.f, FreePending)
  {
    var f := op.f;
    var k, c := ReuseIsDirty(Last(run), f, op.links);
    var start := Then(run, op, Apply(Last(run), op));
    var t := Last(start);
    var g := SomeCell(t);
    Prepare(t, k, f, c, g);
    hide Safe, Reused, Doomed, Allowed, Apply;
    var made := Extend(start, start, OpNew(g, [To(f)]));
    var locked := Extend(start, made, OpLock(g));
    var doomed := Extend(start, locked, OpPatch(g, 0, To(f)));
    end := DoomedLoses(start, doomed, k + {g}, g, f, c);
    LostIsReached(Last(end), g, f);
  }
}
