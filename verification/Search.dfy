/** The depth-first search that the debugging checks use to ask whether the roots reach a cell.
    Marks only record the path being walked: they are dropped again on the way back. */
module Search {
  import opened Sums
  import opened GcState

  ghost predicate Unmarked(marks: seq<bool>, p: seq<nat>) {
    forall i :: 0 <= i < |p| ==> p[i] < |marks| && !marks[p[i]]
  }

  /** Some path leads from a to dest without touching a marked cell. */
  ghost predicate Leads(cells: seq<Cell>, marks: seq<bool>, a: nat, dest: nat) {
    exists p :: PathFromTo(cells, p, a, dest) && Unmarked(marks, p)
  }

  ghost predicate LinkLeads(cells: seq<Cell>, marks: seq<bool>, l: Link, dest: nat) {
    l.To? && Leads(cells, marks, l.id, dest)
  }

  lemma PrependPath(cells: seq<Cell>, p: seq<nat>, a: nat, b: nat, dest: nat)
    requires PathFromTo(cells, p, b, dest) && Edge(cells, a, b)
    ensures PathFromTo(cells, [a] + p, a, dest)
  {
    var q := [a] + p;
    forall i | 0 <= i < |q| - 1 ensures Edge(cells, q[i], q[i + 1]) {
      if i > 0 {
        assert Edge(cells, p[i - 1], p[i]);
      }
    }
  }

  lemma StepLeads(cells: seq<Cell>, marks: seq<bool>, a: nat, b: nat, dest: nat)
    requires |marks| == |cells| && a < |cells| && !marks[a] && Edge(cells, a, b)
    requires Leads(cells, marks[a := true], b, dest)
    ensures Leads(cells, marks, a, dest)
  {
    hide PathFromTo, Edge;
    var p :| PathFromTo(cells, p, b, dest) && Unmarked(marks[a := true], p);
    PrependPath(cells, p, a, b, dest);
    assert Unmarked(marks, [a] + p) by {
      assert forall i :: 0 <= i < |p| && p[i] < |marks| ==> (marks[a := true][p[i]] || !marks[p[i]]);
    }
  }

  lemma {:induction false} LastVisit(p: seq<nat>, a: nat) returns (j: nat)
    requires |p| > 0 && p[0] == a
    ensures j < |p| && p[j] == a && forall i :: j < i < |p| ==> p[i] != a
  {
    if p[|p| - 1] == a {
      j := |p| - 1;
    } else {
      j := LastVisit(p[..|p| - 1], a);
      forall i | j < i < |p| ensures p[i] != a {
        assert i < |p| - 1 ==> p[..|p| - 1][i] == p[i];
      }
    }
  }

  /** A path that moves on from a can leave it for good through one of its links. */
  lemma LeavesForGood(cells: seq<Cell>, marks: seq<bool>, a: nat, dest: nat) returns (b: nat)
    requires |marks| == |cells| && a != dest && Leads(cells, marks, a, dest)
    ensures Edge(cells, a, b) && Leads(cells, marks[a := true], b, dest)
  {
    var p :| PathFromTo(cells, p, a, dest) && Unmarked(marks, p);
    var j := LastVisit(p, a);
    b := p[j + 1];
    assert Edge(cells, p[j], p[j + 1]);
    var q := p[j + 1..];
    assert forall i :: 0 <= i < |q| ==> q[i] == p[j + 1 + i];
    forall i | 0 <= i < |q| - 1 ensures Edge(cells, q[i], q[i + 1]) {
      assert Edge(cells, p[j + 1 + i], p[j + 2 + i]);
    }
    assert PathFromTo(cells, q, b, dest) && Unmarked(marks[a := true], q);
  }

  /** What the search of a marked cell's links decides. */
  lemma LeadsByLinks(cells: seq<Cell>, marks: seq<bool>, a: nat, dest: nat)
    requires |marks| == |cells| && a < |cells| && !marks[a]
    requires forall i :: 0 <= i < |cells[a].links| && cells[a].links[i].To? ==> cells[a].links[i].id < |cells|
    ensures Leads(cells, marks, a, dest) <==>
      a == dest || exists i :: 0 <= i < |cells[a].links| && LinkLeads(cells, marks[a := true], cells[a].links[i], dest)
  {
    if a == dest {
      assert PathFromTo(cells, [a], a, dest) && Unmarked(marks, [a]);
    } else if Leads(cells, marks, a, dest) {
      var b := LeavesForGood(cells, marks, a, dest);
      var i :| 0 <= i < |cells[a].links| && cells[a].links[i] == To(b);
      assert LinkLeads(cells, marks[a := true], cells[a].links[i], dest);
    } else if i :| 0 <= i < |cells[a].links| && LinkLeads(cells, marks[a := true], cells[a].links[i], dest) {
      StepLeads(cells, marks, a, cells[a].links[i].id, dest);
    }
  }

  function Clear(): bool -> nat {
    (b: bool) => if b then 0 else 1
  }

  ghost predicate Graph(cells: seq<Cell>) {
    forall c :: 0 <= c < |cells| ==> AllInRange(State(cells, 0), cells[c].links)
  }

  /** reachable_helper: found is set, and never reset, when the link leads to dest. */
  method ReachableHelper(cells: seq<Cell>, searched: array<bool>, dest: nat, link: Link, found: bool)
      returns (now: bool)
    requires searched.Length == |cells| && Graph(cells) && InRange(State(cells, 0), link)
    modifies searched
    ensures searched[..] == old(searched[..])
    ensures now <==> found || LinkLeads(cells, old(searched[..]), link, dest)
    decreases Sum(searched[..], Clear())
  {
    now := found;
    if link.Null? {
      return;
    }
    var mc := link.id;
    if searched[mc] {
      assert forall p :: PathFromTo(cells, p, mc, dest) ==> p[0] == mc;
      return;
    }
    ghost var marks := searched[..];
    LeadsByLinks(cells, marks, mc, dest);
    SumUpdate(marks, Clear(), mc, true);
    searched[mc] := true;
    assert searched[..] == marks[mc := true];
    if mc == dest {
      now := true;
    } else {
      var ls := cells[mc].links;
      assert AllInRange(State(cells, 0), ls);
      var i := 0;
      while i < |ls|
        invariant i <= |ls| && searched[..] == marks[mc := true]
        invariant now <==> found || exists j :: 0 <= j < i && LinkLeads(cells, marks[mc := true], ls[j], dest)
      {
        now := ReachableHelper(cells, searched, dest, ls[i], now);
        i := i + 1;
      }
    }
    searched[mc] := false;
    assert searched[..] == marks;
  }

  /** memcell_reachable decides whether some root reaches the cell, and leaves no mark behind. */
  method MemcellReachable(s: State, roots: seq<nat>, searched: array<bool>, dest: nat) returns (found: bool)
    requires searched.Length == |s.cells| && Graph(s.cells)
    requires forall i :: 0 <= i < |searched[..]| ==> !searched[..][i]
    requires forall c :: c in roots <==> IsRoot(s, c)
    modifies searched
    ensures searched[..] == old(searched[..])
    ensures found <==> Reached(s, dest)
  {
    ghost var marks := searched[..];
    found := false;
    var i := 0;
    while i < |roots| && !found
      invariant i <= |roots| && searched[..] == marks
      invariant found <==> exists j :: 0 <= j < i && Leads(s.cells, marks, roots[j], dest)
    {
      assert roots[i] in roots;
      found := ReachableHelper(s.cells, searched, dest, To(roots[i]), found);
      i := i + 1;
    }
    ClearMarksReach(s, roots, marks, dest);
  }

  lemma ClearMarksReach(s: State, roots: seq<nat>, marks: seq<bool>, dest: nat)
    requires |marks| == |s.cells| && forall i :: 0 <= i < |marks| ==> !marks[i]
    requires forall c :: c in roots <==> IsRoot(s, c)
    ensures Reached(s, dest) <==> exists j :: 0 <= j < |roots| && Leads(s.cells, marks, roots[j], dest)
  {
    if Reached(s, dest) {
      var p: seq<nat>, r: nat :| IsRoot(s, r) && PathFromTo(s.cells, p, r, dest);
      assert r in roots && Unmarked(marks, p);
      var j :| 0 <= j < |roots| && roots[j] == r;
      assert Leads(s.cells, marks, roots[j], dest);
    }
    if j :| 0 <= j < |roots| && Leads(s.cells, marks, roots[j], dest) {
      assert roots[j] in roots;
    }
  }
}
