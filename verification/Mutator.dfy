/** The operations of the running program keep the collector's invariant. */
module Mutator {
  import opened Sums
  import opened GcState
  import opened Collector
  import opened Safety

  /** What the roots reach is live. */
  lemma ReachedIsLive(s: State, k: set<nat>, c: nat)
    requires LiveSet(s.cells, k) && Reached(s, c)
    ensures c in k
  {
    var p: seq<nat>, r: nat :| IsRoot(s, r) && PathFromTo(s.cells, p, r, c);
    ClosedHoldsPath(s.cells, k, p);
  }

  // ----- allocation

  /** Handing out a cell moves no reference, so its count may only restart when nothing refers to it. */
  lemma RequestExact(s: State, f: nat)
    requires LinksInRange(s) && Exact(s.cells, multiset{}) && f <= |s.cells|
    requires f < |s.cells| ==> s.cells[f].place.Free?
    ensures forall t :: 0 <= t < |Request(s, f).cells| ==>
      InDegree(Request(s, f).cells, t) == if t < |s.cells| then s.cells[t].refcount else 0
  {
    var r := Request(s, f).cells;
    forall t | 0 <= t < |r| ensures InDegree(r, t) == if t < |s.cells| then s.cells[t].refcount else 0 {
      if f < |s.cells| {
        InDegreeUpdate(s.cells, f, r[f], t);
      } else {
        SumAppend(s.cells, Into(t), r[f]);
        if t == f && InDegree(s.cells, t) > 0 {
          var c := InDegreeHasSource(s.cells, t);
          assert false;
        }
      }
    }
  }

  lemma RequestTracedLive(cells: seq<Cell>, k: set<nat>, r: seq<Cell>, f: nat)
    requires Traced(cells) && LiveSet(cells, k) && f <= |cells|
    requires f < |cells| ==> cells[f].place.Free?
    requires forall a: nat, b: nat :: a < |cells| && To(b) in cells[a].links ==> b < |cells|
    requires |r| >= |cells| && f < |r| <= |cells| + 1 && r[f] == Cell(RootTodo, false, 0, [])
    requires forall c :: 0 <= c < |r| && c != f ==> c < |cells| && r[c] == cells[c]
    ensures Traced(r) && LiveSet(r, k + {f})
  {
    forall a: nat, b: nat | Edge(r, a, b) && Done(r[a].place) ensures !r[b].place.Unproc? && !r[b].place.Free? {
      assert Edge(cells, a, b);
    }
    forall a: nat, b: nat | a in k + {f} && Edge(r, a, b) ensures b in k + {f} {
      assert Edge(cells, a, b);
    }
  }

  lemma RequestKeeps(s: State, k: set<nat>, f: nat)
    requires Inv(s, k, multiset{}) && f <= |s.cells|
    requires f < |s.cells| ==> s.cells[f].place.Free? && s.cells[f].refcount == 0
    ensures f !in k && Inv(Request(s, f), k + {f}, multiset{})
  {
    var r := Request(s, f);
    RequestExact(s, f);
    forall a: nat, b: nat | a < |s.cells| && To(b) in s.cells[a].links ensures b < |s.cells| {
      assert AllInRange(s, s.cells[a].links);
    }
    RequestTracedLive(s.cells, k, r.cells, f);
    forall c | 0 <= c < |r.cells| ensures AllInRange(r, r.cells[c].links) {
      if c != f {
        assert AllInRange(s, s.cells[c].links);
      }
    }
  }

  // ----- storing links

  lemma SetLinksExact(cells: seq<Cell>, debt: multiset<Link>, c: nat, ls: seq<Link>, debt': multiset<Link>)
    requires c < |cells| && Exact(cells, debt) && !cells[c].place.Free?
    requires debt + multiset(cells[c].links) == debt' + multiset(ls)
    ensures Exact(cells[c := cells[c].(links := ls)], debt')
  {
    var r := cells[c := cells[c].(links := ls)];
    forall t | 0 <= t < |r| ensures r[t].refcount == InDegree(r, t) + debt'[To(t)] {
      InDegreeUpdate(cells, c, r[c], t);
      assert (debt + multiset(cells[c].links))[To(t)] == (debt' + multiset(ls))[To(t)];
    }
  }

  lemma SetLinksTracedLive(cells: seq<Cell>, k: set<nat>, c: nat, ls: seq<Link>)
    requires c < |cells| && c in k && Traced(cells) && LiveSet(cells, k) && AllLive(k, ls)
    requires forall i :: 0 <= i < |ls| && ls[i].To? ==>
      (Done(cells[c].place) ==> ls[i].id < |cells| && !cells[ls[i].id].place.Unproc?)
    ensures var r := cells[c := cells[c].(links := ls)]; Traced(r) && LiveSet(r, k)
  {
    var r := cells[c := cells[c].(links := ls)];
    forall a: nat, b: nat | Edge(r, a, b) && a != c ensures Edge(cells, a, b) {
    }
  }

  lemma SetLinksKeeps(s: State, k: set<nat>, debt: multiset<Link>, c: nat, ls: seq<Link>, debt': multiset<Link>)
    requires Inv(s, k, debt) && c in k && AllLive(k, ls)
    requires debt + multiset(s.cells[c].links) == debt' + multiset(ls)
    requires forall i :: 0 <= i < |ls| && ls[i].To? ==>
      (Done(s.cells[c].place) ==> ls[i].id < |s.cells| && !s.cells[ls[i].id].place.Unproc?)
    ensures Inv(SetLinks(s, c, ls), k, debt')
  {
    SetLinksExact(s.cells, debt, c, ls, debt');
    SetLinksTracedLive(s.cells, k, c, ls);
    var r := SetLinks(s, c, ls);
    forall x | 0 <= x < |r.cells| ensures AllInRange(r, r.cells[x].links) {
      assert AllInRange(s, s.cells[x].links);
    }
    forall t: nat | To(t) in debt' ensures t < |r.cells| {
      assert To(t) in debt' + multiset(ls);
      if To(t) in debt {
      } else {
        assert To(t) in debt + multiset(s.cells[c].links);
        assert AllInRange(s, s.cells[c].links);
      }
    }
  }

  lemma NewNodeKeeps(s: State, k: set<nat>, f: nat, ls: seq<Link>)
    requires Inv(s, k, multiset{}) && f <= |s.cells| && AllInRange(s, ls) && AllLive(k, ls)
    requires f < |s.cells| ==> s.cells[f].place.Free? && s.cells[f].refcount == 0
    ensures Inv(NewNode(s, f, ls), k + {f}, multiset{})
  {
    RequestKeeps(s, k, f);
    var q := Request(s, f);
    NewLinkAllKeeps(q, k + {f}, multiset{}, ls);
    NewLinkAllEffect(q, ls);
    var m := NewLinkAll(q, ls);
    assert m.cells[f].links == q.cells[f].links == [];
    assert multiset{} + multiset(ls) == multiset(ls);
    SetLinksKeeps(m, k + {f}, multiset(ls), f, ls, multiset{});
  }

  lemma PatchKeeps(s: State, k: set<nat>, c: nat, i: nat, l: Link) returns (k': set<nat>)
    requires Inv(s, k, multiset{}) && c in k && i < |s.cells[c].links|
    requires InRange(s, l) && (l.To? ==> l.id in k)
    ensures InRange(s, s.cells[c].links[i])
    ensures Inv(Patch(s, c, i, l), k', multiset{})
  {
    var links := s.cells[c].links;
    var was := links[i];
    assert AllInRange(s, links);
    NewLinkKeeps(s, k, multiset{}, l);
    var m := NewLink(s, l);
    assert m.cells[c].links == links;
    PatchStore(m, k, c, i, l);
    k' := StaleLinkKeeps(SetLinks(m, c, links[i := l]), k, multiset{}, was);
  }

  /** Storing the advised target turns the debt into one for the overwritten link. */
  lemma PatchStore(m: State, k: set<nat>, c: nat, i: nat, l: Link)
    requires Inv(m, k, multiset{} + multiset{l}) && c in k && i < |m.cells[c].links|
    requires l.To? ==> l.id in k && !m.cells[l.id].place.Unproc?
    ensures Inv(SetLinks(m, c, m.cells[c].links[i := l]), k, multiset{} + multiset{m.cells[c].links[i]})
  {
    var links := m.cells[c].links;
    var ls := links[i := l];
    assert AllInRange(m, links);
    assert forall j :: 0 <= j < |links| && links[j].To? ==> Edge(m.cells, c, links[j].id);
    Replaced(links, i, l);
    assert AllLive(k, ls);
    hide Exact, LiveSet, Consistent;
    SetLinksKeeps(m, k, multiset{} + multiset{l}, c, ls, multiset{} + multiset{links[i]});
  }

  lemma Replaced(links: seq<Link>, i: nat, l: Link)
    requires i < |links|
    ensures multiset{} + multiset{l} + multiset(links) == multiset{} + multiset{links[i]} + multiset(links[i := l])
  {
    assert multiset(links[i := l]) == multiset(links) - multiset{links[i]} + multiset{l};
    assert links[i] in multiset(links);
  }

  // ----- locks

  lemma LockKeeps(s: State, k: set<nat>, c: nat)
    requires Inv(s, k, multiset{}) && c in k
    ensures Inv(Lock(s, c), k, multiset{})
  {
    var x := Lock(s, c).cells[c];
    ExactUpdate(s.cells, multiset{}, c, x, multiset{});
    TracedUpdate(s.cells, c, x);
    LiveUpdate(s.cells, k, c, x);
  }

  lemma UnlockKeeps(s: State, k: set<nat>, c: nat) returns (k': set<nat>)
    requires Inv(s, k, multiset{}) && IsRoot(s, c)
    ensures Inv(Unlock(s, c), k', multiset{})
  {
    var x := Unlock(s, c).cells[c];
    ExactUpdate(s.cells, multiset{}, c, x, multiset{});
    TracedUpdate(s.cells, c, x);
    if x.place.FreePending? {
      k' := k - {c};
      LiveDrop(s.cells, k, c, x);
    } else {
      k' := k;
      LiveUpdate(s.cells, k, c, x);
    }
  }
}
