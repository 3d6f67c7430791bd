/** The collector's heap as a value: cells, the list each one is on, and paths along their links. */
module GcState {
  import opened Sums

  /** One link slot of a cell's data; the link callback also visits empty slots. */
  datatype Link = Null | To(id: nat)

  /** The list a cell is on. The roots list is split by its sentinel: RootTodo stands before it. */
  datatype Place = Free | FreePending | RootTodo | RootDone | Boundary | Reachable | Unproc {
    predicate IsRoot() {
      RootTodo? || RootDone?
    }
  }

  datatype Cell = Cell(place: Place, locked: bool, refcount: nat, links: seq<Link>)

  datatype State = State(cells: seq<Cell>, cleanCycles: nat)

  const EMPTY := State([], 0)

  predicate Is(s: State, c: nat, p: Place) {
    c < |s.cells| && s.cells[c].place == p
  }

  predicate IsRoot(s: State, c: nat) {
    c < |s.cells| && s.cells[c].place.IsRoot()
  }

  ghost predicate NoneOn(s: State, p: Place) {
    forall c :: 0 <= c < |s.cells| ==> s.cells[c].place != p
  }

  predicate InRange(s: State, l: Link) {
    l.To? ==> l.id < |s.cells|
  }

  predicate AllInRange(s: State, ls: seq<Link>) {
    forall i :: 0 <= i < |ls| ==> InRange(s, ls[i])
  }

  /** Same cells, same link slots and same locks: all that a collector step may not change. */
  ghost predicate SameGraph(a: seq<Cell>, b: seq<Cell>) {
    |a| == |b| && forall i :: 0 <= i < |a| ==> a[i].links == b[i].links && a[i].locked == b[i].locked
  }

  // ----- reference counts

  function Into(t: nat): Cell -> nat {
    (c: Cell) => if c.place.Free? then 0 else multiset(c.links)[To(t)]
  }

  /** The number of link slots of non-free cells that point at t, duplicates and self-links included. */
  function InDegree(cells: seq<Cell>, t: nat): nat {
    Sum(cells, Into(t))
  }

  lemma InDegreeUpdate(cells: seq<Cell>, c: nat, x: Cell, t: nat)
    requires c < |cells|
    ensures InDegree(cells[c := x], t) == InDegree(cells, t) - Into(t)(cells[c]) + Into(t)(x)
  {
    SumUpdate(cells, Into(t), c, x);
  }

  /** In-degrees look at nothing but link slots and at which cells are free. */
  lemma InDegreeSame(a: seq<Cell>, b: seq<Cell>, t: nat)
    requires |a| == |b|
    requires forall i :: 0 <= i < |a| ==> a[i].links == b[i].links && (a[i].place.Free? <==> b[i].place.Free?)
    ensures InDegree(a, t) == InDegree(b, t)
  {
    SumLe(a, b, Into(t));
    SumLe(b, a, Into(t));
  }

  /** A cell that some non-free cell links to has a positive in-degree. */
  lemma LinkedHasInDegree(cells: seq<Cell>, c: nat, t: nat)
    requires c < |cells| && !cells[c].place.Free? && To(t) in cells[c].links
    ensures InDegree(cells, t) > 0
  {
    SumAtLeast(cells, Into(t), c);
  }

  lemma InDegreeHasSource(cells: seq<Cell>, t: nat) returns (c: nat)
    requires InDegree(cells, t) > 0
    ensures c < |cells| && !cells[c].place.Free? && To(t) in cells[c].links
  {
    c := SumWitness(cells, Into(t));
  }

  // ----- paths

  ghost predicate Edge(cells: seq<Cell>, a: nat, b: nat) {
    a < |cells| && b < |cells| && To(b) in cells[a].links
  }

  ghost predicate IsPath(cells: seq<Cell>, p: seq<nat>) {
    && |p| > 0
    && (forall i :: 0 <= i < |p| ==> p[i] < |cells|)
    && (forall i :: 0 <= i < |p| - 1 ==> Edge(cells, p[i], p[i + 1]))
  }

  ghost predicate PathFromTo(cells: seq<Cell>, p: seq<nat>, a: nat, b: nat) {
    IsPath(cells, p) && p[0] == a && p[|p| - 1] == b
  }

  /** Some link path leads from a cell on the roots list to c. */
  ghost predicate Reached(s: State, c: nat) {
    exists p: seq<nat>, r: nat :: IsRoot(s, r) && PathFromTo(s.cells, p, r, c)
  }

  /** Some link path leads from a locked cell to c. */
  ghost predicate ReachedFromLocked(s: State, c: nat) {
    exists p: seq<nat>, r: nat :: r < |s.cells| && s.cells[r].locked && PathFromTo(s.cells, p, r, c)
  }

  ghost predicate LinkReached(s: State, l: Link) {
    l.To? ==> Reached(s, l.id)
  }

  /** A set that is closed under links and holds the start of a path holds its end. */
  lemma {:induction false} ClosedHoldsPath(cells: seq<Cell>, k: set<nat>, p: seq<nat>)
    requires IsPath(cells, p) && p[0] in k
    requires forall a, b :: a in k && Edge(cells, a, b) ==> b in k
    ensures p[|p| - 1] in k
  {
    if |p| > 1 {
      var q := p[..|p| - 1];
      assert forall i :: 0 <= i < |q| ==> q[i] == p[i];
      ClosedHoldsPath(cells, k, q);
      assert Edge(cells, p[|p| - 2], p[|p| - 1]);
    }
  }

  lemma ExtendPath(cells: seq<Cell>, p: seq<nat>, a: nat, b: nat, c: nat)
    requires PathFromTo(cells, p, a, b) && Edge(cells, b, c)
    ensures PathFromTo(cells, p + [c], a, c)
  {
  }
}
