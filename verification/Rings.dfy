/** The six rings of cells as sequences, with the owner that every cell's header names. */
module Rings {
  import opened GcState
  /** The ring a cell's header names as its owner; NoRing while the cell is between two rings. */
  datatype Ring = NoRing | FreeRing | PendingRing | RootsRing | BoundaryRing | WhiteRing | BlackRing

  predicate Distinct(s: seq<nat>) {
    forall i, j :: 0 <= i < j < |s| ==> s[i] != s[j]
  }

  /** The sequence without its first occurrence of c. */
  function Minus(s: seq<nat>, c: nat): (r: seq<nat>)
  {
    if s == [] then []
    else if s[0] == c then s[1..]
    else [s[0]] + Minus(s[1..], c)
  }

  lemma {:induction false} MinusMembers(s: seq<nat>, c: nat)
    requires Distinct(s)
    ensures Distinct(Minus(s, c))
    ensures forall x :: x in Minus(s, c) <==> x in s && x != c
    ensures |Minus(s, c)| == if c in s then |s| - 1 else |s|
  {
    if s != [] {
      assert s == [s[0]] + s[1..];
      MinusMembers(s[1..], c);
      assert s[0] !in s[1..];
      if s[0] != c {
        var m := Minus(s[1..], c);
        assert s[0] !in m;
        assert forall j :: 1 <= j < |[s[0]] + m| ==> ([s[0]] + m)[j] in m;
      }
    }
  }

  lemma MinusAbsent(s: seq<nat>, c: nat)
    requires c !in s
    ensures Minus(s, c) == s
  {
    if s != [] {
      MinusAbsent(s[1..], c);
      assert s == [s[0]] + s[1..];
    }
  }

  /** Where removing a cell leaves the part of the ring before the sentinel. */
  lemma {:induction false} MinusSplit(s: seq<nat>, c: nat, k: nat)
    requires k <= |s| && Distinct(s)
    ensures c in s[..k] ==> k > 0 && k - 1 <= |Minus(s, c)| && Minus(s, c)[..k - 1] == Minus(s[..k], c)
    ensures c !in s[..k] ==> k <= |Minus(s, c)| && Minus(s, c)[..k] == s[..k]
    ensures forall x :: x in Minus(s[..k], c) <==> x in s[..k] && x != c
  {
    MinusMembers(s[..k], c);
    MinusMembers(s, c);
    if s != [] && k > 0 {
      assert s[..k] == [s[0]] + s[1..][..k - 1];
      if s[0] != c {
        MinusSplit(s[1..], c, k - 1);
      }
    }
  }

  /** The sequence with c put in at position k. */
  function Put(s: seq<nat>, c: nat, k: nat): seq<nat>
    requires k <= |s|
  {
    s[..k] + [c] + s[k..]
  }

  lemma PutMembers(s: seq<nat>, c: nat, k: nat)
    requires k <= |s| && Distinct(s) && c !in s
    ensures Distinct(Put(s, c, k))
    ensures forall x :: x in Put(s, c, k) <==> x in s || x == c
    ensures Put(s, c, k)[..k] == s[..k] && Put(s, c, k)[..k + 1] == s[..k] + [c]
  {
    var r := Put(s, c, k);
    assert s == s[..k] + s[k..];
    forall i, j | 0 <= i < j < |r| ensures r[i] != r[j] {
      assert r[i] == if i < k then s[i] else if i == k then c else s[i - 1];
      assert r[j] == if j < k then s[j] else if j == k then c else s[j - 1];
    }
  }

  // ----- rings and owners

  /** The ring holds exactly the cells that name it as their owner. */
  ghost predicate Holds(s: seq<nat>, owner: seq<Ring>, r: Ring) {
    Distinct(s) && forall c: nat :: c in s <==> c < |owner| && owner[c] == r
  }

  const ALL_RINGS := {FreeRing, PendingRing, RootsRing, BoundaryRing, WhiteRing, BlackRing}

  /** All list headers of the memory manager: the sentinel's position splits the roots ring, and
      the two coloured rings take turns as the reachable and the unprocessed one. */
  datatype Layout = Layout(rings: map<Ring, seq<nat>>, sentinel: nat, owner: seq<Ring>, reachable: Ring) {

    ghost predicate Ok() {
      && rings.Keys == ALL_RINGS
      && sentinel <= |rings[RootsRing]|
      && reachable in {WhiteRing, BlackRing}
      && forall r :: r in rings ==> Holds(rings[r], owner, r)
    }

    function Unproc(): Ring {
      if reachable == WhiteRing then BlackRing else WhiteRing
    }

    predicate BeforeSentinel(c: nat)
      requires RootsRing in rings && sentinel <= |rings[RootsRing]|
    {
      c in rings[RootsRing][..sentinel]
    }

    /** The place a cell has by being on a ring, at either side of the sentinel. */
    function PlaceOn(r: Ring, before: bool): Place {
      match r
      case PendingRing => FreePending
      case RootsRing => if before then RootTodo else RootDone
      case BoundaryRing => Boundary
      case FreeRing => Free
      case _ => if r == reachable then Reachable else Place.Unproc
    }

    function PlaceOf(c: nat): Place
      requires RootsRing in rings && sentinel <= |rings[RootsRing]| && c < |owner|
    {
      PlaceOn(owner[c], BeforeSentinel(c))
    }

    /** dlnode_remove does not look at the ring a node is on: whichever holds the cell loses it. */
    function Detach(c: nat): Layout
      requires RootsRing in rings && sentinel <= |rings[RootsRing]| && c < |owner|
    {
      Layout(map r | r in rings :: Minus(rings[r], c),
             if BeforeSentinel(c) then sentinel - 1 else sentinel,
             owner[c := NoRing],
             reachable)
    }

    /** dlist_insertlast */
    function Append(c: nat, r: Ring): Layout
      requires r in rings && c < |owner|
    {
      this.(rings := rings[r := rings[r] + [c]], owner := owner[c := r])
    }

    /** dlnode_insertprev and dlnode_insertnext at the sentinel. */
    function InsertRoot(c: nat, before: bool): Layout
      requires RootsRing in rings && sentinel <= |rings[RootsRing]| && c < |owner|
    {
      Layout(rings[RootsRing := Put(rings[RootsRing], c, sentinel)],
             if before then sentinel + 1 else sentinel,
             owner[c := RootsRing],
             reachable)
    }
  }

  /** A cell leaves its ring and joins the end of ring r. */
  function Moved(l: Layout, c: nat, r: Ring): Layout
    requires RootsRing in l.rings && l.sentinel <= |l.rings[RootsRing]| && c < |l.owner| && r in l.rings
  {
    l.Detach(c).Append(c, r)
  }

  /** A cell leaves its ring and joins the roots, right before or right after the sentinel. */
  function MovedToRoots(l: Layout, c: nat, before: bool): Layout
    requires l.Ok() && c < |l.owner| && l.owner[c] != NoRing
  {
    DetachOk(l, c);
    l.Detach(c).InsertRoot(c, before)
  }

  lemma DropHolds(s: seq<nat>, owner: seq<Ring>, r: Ring, c: nat)
    requires Holds(s, owner, r) && c < |owner| && r != NoRing
    ensures Holds(Minus(s, c), owner[c := NoRing], r)
    ensures owner[c] != r ==> Minus(s, c) == s
  {
    MinusMembers(s, c);
    if owner[c] != r {
      MinusAbsent(s, c);
    }
  }

  lemma DetachOk(l: Layout, c: nat)
    requires l.Ok() && c < |l.owner| && l.owner[c] != NoRing
    ensures l.Detach(c).Ok()
    ensures forall r :: r in l.rings && r != l.owner[c] ==> l.Detach(c).rings[r] == l.rings[r]
    ensures forall x: nat :: x < |l.owner| && x != c ==> l.Detach(c).PlaceOf(x) == l.PlaceOf(x)
  {
    var d := l.Detach(c);
    MinusSplit(l.rings[RootsRing], c, l.sentinel);
    hide Holds;
    forall r | r in d.rings ensures Holds(d.rings[r], d.owner, r) && (r != l.owner[c] ==> d.rings[r] == l.rings[r]) {
      assert r in l.rings;
      DropHolds(l.rings[r], l.owner, r, c);
    }
    forall x: nat | x < |l.owner| && x != c ensures d.BeforeSentinel(x) == l.BeforeSentinel(x) {
    }
  }

  lemma PutHolds(s: seq<nat>, owner: seq<Ring>, r: Ring, c: nat, k: nat)
    requires Holds(s, owner, r) && c < |owner| && owner[c] == NoRing && r != NoRing && k <= |s|
    ensures Holds(Put(s, c, k), owner[c := r], r)
  {
    PutMembers(s, c, k);
  }

  lemma OthersHold(s: seq<nat>, owner: seq<Ring>, x: Ring, c: nat, r: Ring)
    requires Holds(s, owner, x) && c < |owner| && owner[c] == NoRing && x != NoRing && x != r
    ensures Holds(s, owner[c := r], x)
  {
  }

  lemma AppendOk(l: Layout, c: nat, r: Ring)
    requires l.Ok() && c < |l.owner| && l.owner[c] == NoRing && r in l.rings && r != RootsRing
    ensures l.Append(c, r).Ok()
    ensures forall x: nat :: x < |l.owner| && x != c ==> l.Append(c, r).PlaceOf(x) == l.PlaceOf(x)
  {
    hide Holds;
    var d := l.Append(c, r);
    PutHolds(l.rings[r], l.owner, r, c, |l.rings[r]|);
    assert Put(l.rings[r], c, |l.rings[r]|) == l.rings[r] + [c];
    forall x | x in d.rings && x != r ensures Holds(d.rings[x], d.owner, x) {
      OthersHold(l.rings[x], l.owner, x, c, r);
    }
    assert d.rings[RootsRing] == l.rings[RootsRing];
  }

  lemma InsertRootOk(l: Layout, c: nat, before: bool)
    requires l.Ok() && c < |l.owner| && l.owner[c] == NoRing
    ensures l.InsertRoot(c, before).Ok()
    ensures l.InsertRoot(c, before).PlaceOf(c) == if before then RootTodo else RootDone
    ensures forall x: nat :: x < |l.owner| && x != c ==> l.InsertRoot(c, before).PlaceOf(x) == l.PlaceOf(x)
  {
    var d := l.InsertRoot(c, before);
    PutHolds(l.rings[RootsRing], l.owner, RootsRing, c, l.sentinel);
    PutMembers(l.rings[RootsRing], c, l.sentinel);
    forall x | x in d.rings && x != RootsRing ensures Holds(d.rings[x], d.owner, x) {
      OthersHold(l.rings[x], l.owner, x, c, RootsRing);
    }
    forall x: nat | x < |l.owner| && x != c ensures d.BeforeSentinel(x) == l.BeforeSentinel(x) {
    }
  }

  // ----- the layout of a heap

  /** Every cell of the heap is on exactly the ring, and on the side of the sentinel, that its place says. */
  ghost predicate Shows(l: Layout, cells: seq<Cell>) {
    && l.Ok()
    && |l.owner| == |cells|
    && forall c: nat :: c < |cells| ==> l.owner[c] != NoRing && l.PlaceOf(c) == cells[c].place
  }

  lemma MoveShows(l: Layout, cells: seq<Cell>, c: nat, r: Ring)
    requires Shows(l, cells) && c < |cells| && r in l.rings && r != RootsRing
    ensures var m := Moved(l, c, r);
      && Shows(m, cells[c := cells[c].(place := l.PlaceOn(r, false))])
      && (cells[c].place != Free && r != FreeRing ==> m.rings[FreeRing] == l.rings[FreeRing])
      && (cells[c].place != Free && r == FreeRing ==> m.rings[FreeRing] == l.rings[FreeRing] + [c])
  {
    hide Holds, Minus;
    DetachOk(l, c);
    AppendOk(l.Detach(c), c, r);
  }

  /** Moving a cell does not touch the references to the coloured rings. */
  lemma MovedKeeps(l: Layout, c: nat, r: Ring)
    requires RootsRing in l.rings && l.sentinel <= |l.rings[RootsRing]| && c < |l.owner| && r in l.rings
    ensures Moved(l, c, r).reachable == l.reachable
  {
  }

  lemma MoveRootShows(l: Layout, cells: seq<Cell>, c: nat, before: bool)
    requires Shows(l, cells) && c < |cells|
    ensures var m := MovedToRoots(l, c, before);
      && Shows(m, cells[c := cells[c].(place := if before then RootTodo else RootDone)])
      && (cells[c].place != Free ==> m.rings[FreeRing] == l.rings[FreeRing])
  {
    DetachOk(l, c);
    InsertRootOk(l.Detach(c), c, before);
  }

  /** memcell_is_root and its like: the owner pointer decides which list a cell is on. */
  lemma OwnerTells(l: Layout, cells: seq<Cell>, c: nat)
    requires Shows(l, cells) && c < |cells|
    ensures l.owner[c] == FreeRing <==> cells[c].place == Free
    ensures l.owner[c] == PendingRing <==> cells[c].place == FreePending
    ensures l.owner[c] == RootsRing <==> cells[c].place.IsRoot()
    ensures l.owner[c] == BoundaryRing <==> cells[c].place == Boundary
    ensures l.owner[c] == l.reachable <==> cells[c].place == Reachable
    ensures l.owner[c] == l.Unproc() <==> cells[c].place == Place.Unproc
  {
    assert l.PlaceOf(c) == cells[c].place;
  }
}
