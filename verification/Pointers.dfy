/** The memory manager's six lists as rings of pointers: removing and inserting header nodes does to the rings
    what the functions on layouts say, and the owner pointers tell the lists apart. */
module Pointers {
  import GcState
  import Rings
  import opened DList

  /** The sequence without the element at position p. */
  function Without<T>(s: seq<T>, p: nat): seq<T>
    requires p < |s|
  {
    s[..p] + s[p + 1..]
  }

  lemma {:induction false} MinusAt(s: seq<nat>, c: nat, p: nat)
    requires Rings.Distinct(s) && p < |s| && s[p] == c
    ensures Rings.Minus(s, c) == Without(s, p)
    decreases |s|
  {
    if p > 0 {
      MinusAt(s[1..], c, p - 1);
      assert Without(s, p) == [s[0]] + Without(s[1..], p - 1);
    } else {
      assert Without(s, 0) == s[1..];
    }
  }

  lemma WithoutAppend<T>(a: seq<T>, b: seq<T>, p: nat)
    requires p < |a| + |b|
    ensures p < |a| ==> Without(a + b, p) == Without(a, p) + b
    ensures p >= |a| ==> Without(a + b, p) == a + Without(b, p - |a|)
  {
  }

  lemma SplitMember(s: seq<nat>, k: nat, p: nat)
    requires Rings.Distinct(s) && k <= |s| && p < |s|
    ensures s[p] in s[..k] <==> p < k
  {
    if p < k {
      assert s[..k][p] == s[p];
    }
  }

  function NoCells(): Rings.Layout {
    Rings.Layout(map r | r in Rings.ALL_RINGS :: [], 0, [], Rings.WhiteRing)
  }

  /** What detaching a cell, at position p of its ring, does to the rings. */
  lemma DetachRings(l: Rings.Layout, c: nat, p: nat)
    requires l.Ok() && c < |l.owner| && l.owner[c] in l.rings
    requires p < |l.rings[l.owner[c]]| && l.rings[l.owner[c]][p] == c
    ensures var r, d := l.owner[c], l.Detach(c);
      && d.Ok() && |d.owner| == |l.owner|
      && d.rings[r] == Without(l.rings[r], p)
      && (forall x :: x in l.rings && x != r ==> d.rings[x] == l.rings[x])
      && d.sentinel == if r.RootsRing? && p < l.sentinel then l.sentinel - 1 else l.sentinel
  {
    var r := l.owner[c];
    assert r in Rings.ALL_RINGS;
    assert Rings.Holds(l.rings[r], l.owner, r);
    assert Rings.Holds(l.rings[Rings.RootsRing], l.owner, Rings.RootsRing);
    MinusAt(l.rings[r], c, p);
    if r.RootsRing? {
      SplitMember(l.rings[r], l.sentinel, p);
    }
    Rings.DetachOk(l, c);
  }

  /** The six lists, the sentinel, and the header node of every cell. */
  datatype Heads = Heads(lists: map<Rings.Ring, DlList>, sentinel: DlNode, nodes: seq<DlNode>) {

    function NodeOf(c: nat): DlNode
    {
      if c < |nodes| then nodes[c] else sentinel
    }

    /** The header nodes of some cells. */
    ghost function Nodes(s: seq<nat>): (r: seq<DlNode>)
      ensures |r| == |s| && forall i :: 0 <= i < |s| ==> r[i] == NodeOf(s[i])
    {
      seq(|s|, i requires 0 <= i < |s| => NodeOf(s[i]))
    }

    /** What is on a list: the nodes of the ring's cells, and on the roots the sentinel at position k. */
    ghost function OnList(s: seq<nat>, r: Rings.Ring, k: nat): seq<DlNode>
    {
      if r.RootsRing? && k <= |s| then Nodes(s[..k]) + [sentinel] + Nodes(s[k..]) else Nodes(s)
    }

    /** All lists are rings, and no two of them are the same. */
    ghost predicate Separate()
      reads *
    {
      && (forall r, x :: r in lists && x in lists && r != x ==> lists[r] != lists[x])
      && (forall r :: r in lists ==> lists[r].Valid())
    }

    /** Every list has the nodes of its ring. */
    ghost predicate Filled(rings: map<Rings.Ring, seq<nat>>, k: nat)
      requires rings.Keys == lists.Keys
      reads *
    {
      forall r :: r in lists ==> lists[r].nodes == OnList(rings[r], r, k)
    }

    /** The pointers are those of the layout. */
    ghost predicate Shows(l: Rings.Layout)
      reads *
    {
      && l.Ok() && |nodes| == |l.owner| && lists.Keys == Rings.ALL_RINGS
      && Distinct(nodes) && sentinel !in nodes
      && Separate() && Filled(l.rings, l.sentinel)
      && (forall c: nat :: c < |nodes| && l.owner[c].NoRing? ==> nodes[c].owner == null)
    }

    /** All list headers and nodes. */
    ghost function Repr(): set<object>
    {
      (set r | r in lists :: lists[r]) + (set r | r in lists :: lists[r].hdr) + (set n | n in nodes) + {sentinel}
    }

    /** Where a cell is on its ring. */
    lemma Where(l: Rings.Layout, c: nat) returns (p: nat)
      requires l.Ok() && lists.Keys == Rings.ALL_RINGS && c < |l.owner| && !l.owner[c].NoRing?
      ensures l.owner[c] in l.rings && l.owner[c] in lists && p < |l.rings[l.owner[c]]| && l.rings[l.owner[c]][p] == c
      ensures l.rings.Keys == lists.Keys && l.sentinel <= |l.rings[Rings.RootsRing]|
    {
      var r := l.owner[c];
      assert r in Rings.ALL_RINGS;
      assert Rings.Holds(l.rings[r], l.owner, r);
      assert c in l.rings[r];
      p :| 0 <= p < |l.rings[r]| && l.rings[r][p] == c;
    }

    /** And on its list, where the sentinel counts. */
    function Position(r: Rings.Ring, k: nat, p: nat): nat {
      if r.RootsRing? && p >= k then p + 1 else p
    }

    lemma AtPosition(s: seq<nat>, r: Rings.Ring, k: nat, p: nat)
      requires p < |s| && (r.RootsRing? ==> k <= |s|)
      ensures Position(r, k, p) < |OnList(s, r, k)| && OnList(s, r, k)[Position(r, k, p)] == NodeOf(s[p])
    {
      hide Nodes;
      if r.RootsRing? && p >= k {
        assert s[k..][p - k] == s[p];
      }
    }

    lemma WithoutOnList(s: seq<nat>, r: Rings.Ring, k: nat, p: nat)
      requires p < |s| && (r.RootsRing? ==> k <= |s|)
      ensures Position(r, k, p) < |OnList(s, r, k)|
      ensures OnList(Without(s, p), r, if r.RootsRing? && p < k then k - 1 else k)
           == Without(OnList(s, r, k), Position(r, k, p))
    {
      hide Nodes;
      if !r.RootsRing? {
        WithoutNodes(s, p);
      } else if p < k {
        WithoutBefore(s, k, p);
      } else {
        WithoutBehind(s, k, p);
      }
    }

    lemma WithoutBefore(s: seq<nat>, k: nat, p: nat)
      requires p < k <= |s|
      ensures Nodes(Without(s, p)[..k - 1]) + [sentinel] + Nodes(Without(s, p)[k - 1..])
           == Without(Nodes(s[..k]) + [sentinel] + Nodes(s[k..]), p)
    {
      hide Nodes;
      var w := Without(s, p);
      assert w[..k - 1] == Without(s[..k], p) && w[k - 1..] == s[k..];
      WithoutNodes(s[..k], p);
      var a, b := Nodes(s[..k]), Nodes(s[k..]);
      assert a + [sentinel] + b == a + ([sentinel] + b);
      assert Without(a, p) + [sentinel] + b == Without(a, p) + ([sentinel] + b);
      WithoutAppend(a, [sentinel] + b, p);
    }

    lemma WithoutBehind(s: seq<nat>, k: nat, p: nat)
      requires k <= p < |s|
      ensures Nodes(Without(s, p)[..k]) + [sentinel] + Nodes(Without(s, p)[k..])
           == Without(Nodes(s[..k]) + [sentinel] + Nodes(s[k..]), p + 1)
    {
      hide Nodes;
      var w := Without(s, p);
      assert w[..k] == s[..k] && w[k..] == Without(s[k..], p - k);
      WithoutNodes(s[k..], p - k);
      WithoutAppend(Nodes(s[..k]) + [sentinel], Nodes(s[k..]), p + 1);
    }

    lemma WithoutNodes(s: seq<nat>, p: nat)
      requires p < |s|
      ensures Nodes(Without(s, p)) == Without(Nodes(s), p)
    {
    }

    lemma AppendOnList(s: seq<nat>, c: nat, r: Rings.Ring, k: nat)
      requires !r.RootsRing?
      ensures OnList(s + [c], r, k) == OnList(s, r, k) + [NodeOf(c)]
    {
    }

    lemma PutOnList(s: seq<nat>, c: nat, k: nat, before: bool)
      requires k <= |s|
      ensures var a := OnList(s, Rings.RootsRing, k);
        var i := if before then k else k + 1;
        && i <= |a|
        && OnList(Rings.Put(s, c, k), Rings.RootsRing, if before then k + 1 else k) == a[..i] + [NodeOf(c)] + a[i..]
    {
      hide Nodes;
      var w, x := Rings.Put(s, c, k), Nodes(s[..k]);
      var y, a := Nodes(s[k..]), Nodes(s[..k]) + [sentinel] + Nodes(s[k..]);
      if before {
        assert w[..k + 1] == s[..k] + [c] && w[k + 1..] == s[k..];
        assert Nodes(s[..k] + [c]) == x + [NodeOf(c)];
        assert a[..k] == x && a[k..] == [sentinel] + y;
      } else {
        assert w[..k] == s[..k] && w[k..] == [c] + s[k..];
        assert Nodes([c] + s[k..]) == [NodeOf(c)] + y;
        assert a[..k + 1] == x + [sentinel] && a[k + 1..] == y;
      }
    }

    lemma SwapOnList(s: seq<nat>)
      ensures OnList(s, Rings.RootsRing, 0) == [sentinel] + Nodes(s)
      ensures OnList(s, Rings.RootsRing, |s|) == Nodes(s) + [sentinel]
    {
      assert s[..0] == [] && s[0..] == s && s[..|s|] == s && s[|s|..] == [];
      assert Nodes([]) == [];
    }

    lemma AllSeparate(free: DlList, pending: DlList, roots: DlList, boundary: DlList, white: DlList, black: DlList)
      requires lists == HeadMap(free, pending, roots, boundary, white, black)
      requires free.Valid() && pending.Valid() && roots.Valid() && boundary.Valid() && white.Valid() && black.Valid()
      requires Apiece([free, pending, roots, boundary, white, black])
      ensures Separate()
    {
      hide DlList.Valid;
      var all := [free, pending, roots, boundary, white, black];
      forall r, x | r in lists && x in lists && r != x
        ensures lists[r] != lists[x]
      {
        assert all[Index(r)] == lists[r] && all[Index(x)] == lists[x];
      }
    }

    lemma AllFilled(free: DlList, pending: DlList, roots: DlList, boundary: DlList, white: DlList, black: DlList)
      requires lists == HeadMap(free, pending, roots, boundary, white, black)
      requires free.nodes == pending.nodes == boundary.nodes == white.nodes == black.nodes == []
      requires roots.nodes == [sentinel]
      ensures NoCells().rings.Keys == lists.Keys && Filled(NoCells().rings, 0)
    {
    }

    /** The owner pointer of a cell's node is the list that the cell is on. */
    lemma OwnerIs(l: Rings.Layout, c: nat)
      requires Shows(l) && c < |nodes|
      ensures nodes[c].owner == if l.owner[c].NoRing? then null else lists[l.owner[c]]
      ensures !l.owner[c].NoRing? ==> nodes[c] in lists[l.owner[c]].nodes
    {
      if !l.owner[c].NoRing? {
        var r := l.owner[c];
        var p := Where(l, c);
        AtPosition(l.rings[r], r, l.sentinel, p);
        hide OnList;
        OnRing(lists[r], Position(r, l.sentinel, p));
      }
    }

    /** The partition of the cells, in pointers: a node is on a list just if it names the list as its owner, and
        the owner of a cell's node is the list that the cell's place says. */
    lemma PlaceTells(l: Rings.Layout, cells: seq<GcState.Cell>, c: nat)
      requires Shows(l) && Rings.Shows(l, cells) && c < |cells|
      ensures c < |nodes| && Rings.ALL_RINGS == lists.Keys
      ensures forall r :: r in lists ==> (nodes[c] in lists[r].nodes <==> nodes[c].owner == lists[r])
      ensures var p, owner := cells[c].place, nodes[c].owner;
        && (p.Free? <==> owner == lists[Rings.FreeRing])
        && (p.FreePending? <==> owner == lists[Rings.PendingRing])
        && (p.IsRoot() <==> owner == lists[Rings.RootsRing])
        && (p.Boundary? <==> owner == lists[Rings.BoundaryRing])
        && (p.Reachable? <==> owner == lists[l.reachable])
        && (p.Unproc? <==> owner == lists[l.Unproc()])
    {
      OwnerIs(l, c);
      Rings.OwnerTells(l, cells, c);
      hide OnList;
      forall r | r in lists
        ensures nodes[c] in lists[r].nodes <==> nodes[c].owner == lists[r]
      {
        if nodes[c] in lists[r].nodes {
          var i :| 0 <= i < |lists[r].nodes| && lists[r].nodes[i] == nodes[c];
          OnRing(lists[r], i);
        }
      }
    }

    /** The lists other than r are those of the layout, and the cells other than c that are on none have no owner. */
    ghost predicate Rest(l: Rings.Layout, r: Rings.Ring, c: nat)
      reads *
    {
      && l.rings.Keys == lists.Keys && |l.owner| == |nodes|
      && (forall x :: x in lists && x != r ==> lists[x].nodes == OnList(l.rings[x], x, l.sentinel))
      && (forall y: nat :: y < |nodes| && y != c && l.owner[y].NoRing? ==> nodes[y].owner == null)
    }

    /** Taking a node out of one list leaves the others alone. */
    method TakeOut(ghost l: Rings.Layout, ghost r: Rings.Ring, ghost c: nat, n: DlNode, list: DlList, ghost i: nat)
      requires Separate() && r in lists && list == lists[r] && i < |list.nodes| && n == list.nodes[i] && Rest(l, r, c)
      modifies list, list.hdr, list.nodes
      ensures Separate() && n.owner == null && list.nodes == Without(old(list.nodes), i) && Rest(l, r, c)
    {
      hide DlList.Valid, Ring;
      forall x | x in lists && x != r
        ensures lists[x] != list && lists[x].hdr != list.hdr && lists[x].hdr !in list.nodes
        ensures list.hdr !in lists[x].nodes && forall n :: n in list.nodes ==> n !in lists[x].nodes
      {
        Apart(list, lists[x]);
      }
      ghost var gone := list.nodes;
      forall y | y in nodes && y.owner == null
        ensures y != list.hdr && y !in gone
      {
        NotOn(list, y);
      }
      list.Take(n, i);
      forall x | x in lists && x != r
        ensures lists[x].Valid()
      {
        assert lists[x].nodes == old(lists[x].nodes);
        assert forall y :: y in [lists[x].hdr] + lists[x].nodes ==> y != list.hdr && y !in gone;
        Undisturbed(lists[x]);
      }
    }

    /** Putting a node into one list, between two neighbours, leaves the others alone. */
    method PutIn(ghost l: Rings.Layout, ghost r: Rings.Ring, ghost c: nat, ghost list: DlList, ghost k: nat,
        prev: DlNode, n: DlNode, next: DlNode)
      requires Separate() && r in lists && list == lists[r] && k <= |list.nodes| && n.owner == null && Rest(l, r, c)
      requires forall y: nat :: y < |nodes| && y != c ==> nodes[y] != n
      requires prev == ([list.hdr] + list.nodes)[k]
      requires next == if k == |list.nodes| then list.hdr else list.nodes[k]
      modifies list, list.hdr, list.nodes, n
      ensures Separate() && list.nodes == old(list.nodes[..k] + [n] + list.nodes[k..]) && n.owner == list
      ensures Rest(l, r, c)
    {
      hide Ring, DlList.Valid;
      ghost var was := list.nodes;
      OthersApart(r, n);
      NotOn(list, n);
      forall y | y in nodes && y.owner == null
        ensures y != list.hdr && y !in was
      {
        NotOn(list, y);
      }
      InsertBetween(list, k, prev, n, next);
      forall x | x in lists && x != r
        ensures lists[x].Valid()
      {
        assert lists[x].nodes == old(lists[x].nodes);
        assert forall y :: y in [lists[x].hdr] + lists[x].nodes ==> y != list.hdr && y !in was && y != n;
        Undisturbed(lists[x]);
      }
    }

    /** The other lists share no node with the list r, and do not have the node n. */
    lemma OthersApart(r: Rings.Ring, n: DlNode)
      requires Separate() && r in lists && n.owner == null
      ensures forall x :: x in lists && x != r ==>
        && lists[x] != lists[r] && lists[x].hdr != lists[r].hdr && lists[x].hdr !in lists[r].nodes
        && lists[x].hdr != n && lists[r].hdr !in lists[x].nodes && n !in lists[x].nodes
      ensures forall x, y :: x in lists && x != r && y in lists[r].nodes ==> y !in lists[x].nodes
    {
      hide DlList.Valid;
      forall x | x in lists && x != r
        ensures lists[x] != lists[r] && lists[x].hdr != lists[r].hdr && lists[x].hdr !in lists[r].nodes
        ensures lists[x].hdr != n && lists[r].hdr !in lists[x].nodes && n !in lists[x].nodes
        ensures forall y :: y in lists[r].nodes ==> y !in lists[x].nodes
      {
        Apart(lists[r], lists[x]);
        NotOn(lists[x], n);
      }
    }

    method PutLast(ghost l: Rings.Layout, ghost r: Rings.Ring, ghost c: nat, list: DlList, n: DlNode)
      requires Separate() && r in lists && list == lists[r] && n.owner == null && Rest(l, r, c)
      requires forall y: nat :: y < |nodes| && y != c ==> nodes[y] != n
      modifies list, list.hdr, list.nodes, n
      ensures Separate() && list.nodes == old(list.nodes) + [n] && n.owner == list && Rest(l, r, c)
    {
      SeparateValid(r);
      hide *;
      var last := list.Last();
      ghost var ns := list.nodes;
      assert last == ([list.hdr] + ns)[|ns|] && ns[..|ns|] == ns && ns[|ns|..] == [];
      PutIn(l, r, c, list, |ns|, last, n, list.hdr);
    }

    // ----- the collector's moves

    lemma OnListNodes(s: seq<nat>, r: Rings.Ring, k: nat)
      ensures forall n :: n in OnList(s, r, k) ==> n in nodes || n == sentinel
    {
      forall n | n in OnList(s, r, k)
        ensures n in nodes || n == sentinel
      {
        if n != sentinel {
          var i :| 0 <= i < |OnList(s, r, k)| && OnList(s, r, k)[i] == n;
        }
      }
    }

    /** The rings of d are those of l, but for what happens to the list r. */
    ghost predicate Changed(l: Rings.Layout, d: Rings.Layout, r: Rings.Ring)
    {
      && l.rings.Keys == d.rings.Keys == lists.Keys && r in lists
      && d.Ok() && |d.owner| == |nodes|
      && forall x :: x in lists && x != r ==> OnList(d.rings[x], x, d.sentinel) == OnList(l.rings[x], x, l.sentinel)
    }

    /** In d the cell c is on no list; it was number i on the list r. */
    ghost predicate Loses(l: Rings.Layout, d: Rings.Layout, r: Rings.Ring, c: nat, i: nat) {
      && Changed(l, d, r) && c < |l.owner| && l.owner[c] == r && d.owner == l.owner[c := Rings.NoRing]
      && i < |OnList(l.rings[r], r, l.sentinel)| && OnList(l.rings[r], r, l.sentinel)[i] == NodeOf(c)
      && OnList(d.rings[r], r, d.sentinel) == Without(OnList(l.rings[r], r, l.sentinel), i)
    }

    lemma DetachLoses(l: Rings.Layout, c: nat) returns (i: nat)
      requires l.Ok() && lists.Keys == Rings.ALL_RINGS && |nodes| == |l.owner| && c < |nodes| && !l.owner[c].NoRing?
      ensures Loses(l, l.Detach(c), l.owner[c], c, i)
    {
      var d, r, k := l.Detach(c), l.owner[c], l.sentinel;
      var p := Where(l, c);
      DetachRings(l, c, p);
      assert d.owner == l.owner[c := Rings.NoRing];
      hide Rings.Layout.Ok, Rings.Layout.Detach, OnList, Without;
      i := Position(r, k, p);
      AtPosition(l.rings[r], r, k, p);
      WithoutOnList(l.rings[r], r, k, p);
      OnListAny(d.rings[r], r, d.sentinel, if r.RootsRing? && p < k then k - 1 else k);
      forall x | x in lists && x != r
        ensures OnList(d.rings[x], x, d.sentinel) == OnList(l.rings[x], x, k)
      {
        OnListAny(l.rings[x], x, k, d.sentinel);
      }
    }

    /** The list r has changed as the layout has, and c's owner with it. */
    lemma ShowsAfter(l: Rings.Layout, d: Rings.Layout, r: Rings.Ring, c: nat)
      requires Changed(l, d, r) && Separate() && Rest(l, r, c) && lists.Keys == Rings.ALL_RINGS
      requires Distinct(nodes) && sentinel !in nodes
      requires lists[r].nodes == OnList(d.rings[r], r, d.sentinel)
      requires c < |nodes| && d.owner == l.owner[c := d.owner[c]] && (d.owner[c].NoRing? ==> nodes[c].owner == null)
      ensures Shows(d)
    {
      hide Separate, Rings.Layout.Ok, OnList;
    }

    /** A method may change the nodes of all lists. */
    lemma InRepr(l: Rings.Layout, r: Rings.Ring)
      requires Shows(l) && r in lists
      ensures lists[r] in Repr() && lists[r].hdr in Repr() && forall n :: n in lists[r].nodes ==> n in Repr()
    {
      OnListNodes(l.rings[r], r, l.sentinel);
      hide OnList, Separate, DlList.Valid, Rings.Layout.Ok;
    }

    lemma OutReady(l: Rings.Layout, d: Rings.Layout, r: Rings.Ring, c: nat, i: nat)
      requires Shows(l) && Loses(l, d, r, c, i) && !r.NoRing?
      ensures Separate() && r in lists && c < |nodes| && nodes[c].owner == lists[r]
      ensures i < |lists[r].nodes| && nodes[c] == lists[r].nodes[i] && Rest(l, r, c)
      ensures OnList(d.rings[r], r, d.sentinel) == Without(lists[r].nodes, i)
      ensures d.owner == l.owner[c := d.owner[c]] && Changed(l, d, r)
    {
      hide DlList.Valid, Rings.Layout.Ok, Separate, OnList, Without;
      OwnerIs(l, c);
    }

    /** dlnode_remove of a cell's node */
    method Unlink(c: nat, ghost l: Rings.Layout, ghost d: Rings.Layout, ghost r: Rings.Ring, ghost i: nat)
      requires Shows(l) && Loses(l, d, r, c, i) && !r.NoRing?
      modifies Repr()
      ensures Shows(d) && nodes[c].owner == null
    {
      OutReady(l, d, r, c, i);
      InRepr(l, r);
      assert lists.Keys == Rings.ALL_RINGS && Distinct(nodes) && sentinel !in nodes;
      hide *;
      TakeOut(l, r, c, nodes[c], nodes[c].owner, i);
      ShowsAfter(l, d, r, c);
    }

    /** In d the cell c, which was on no list, is number i on the list r. */
    ghost predicate Gains(l: Rings.Layout, d: Rings.Layout, r: Rings.Ring, c: nat, i: nat) {
      && Changed(l, d, r) && c < |l.owner| && l.owner[c].NoRing? && d.owner == l.owner[c := r] && !r.NoRing?
      && i <= |OnList(l.rings[r], r, l.sentinel)|
      && var a := OnList(l.rings[r], r, l.sentinel);
         OnList(d.rings[r], r, d.sentinel) == a[..i] + [NodeOf(c)] + a[i..]
    }

    lemma InReady(l: Rings.Layout, d: Rings.Layout, r: Rings.Ring, c: nat, i: nat)
      requires Shows(l) && Gains(l, d, r, c, i)
      ensures Separate() && r in lists && c < |nodes| && nodes[c].owner == null && i <= |lists[r].nodes|
      ensures forall y: nat :: y < |nodes| && y != c ==> nodes[y] != nodes[c]
      ensures Rest(l, r, c) && Changed(l, d, r) && d.owner == l.owner[c := d.owner[c]] && !d.owner[c].NoRing?
      ensures OnList(d.rings[r], r, d.sentinel) == lists[r].nodes[..i] + [nodes[c]] + lists[r].nodes[i..]
    {
      hide DlList.Valid, Rings.Layout.Ok, Separate, OnList;
    }

    /** dlnode_insert of a cell's node between two neighbours */
    method Link(c: nat, ghost l: Rings.Layout, ghost d: Rings.Layout, ghost r: Rings.Ring, ghost i: nat, prev: DlNode,
        next: DlNode)
      requires Shows(l) && Gains(l, d, r, c, i) && r in lists && i <= |lists[r].nodes|
      requires prev == ([lists[r].hdr] + lists[r].nodes)[i]
      requires next == if i == |lists[r].nodes| then lists[r].hdr else lists[r].nodes[i]
      modifies Repr()
      ensures Shows(d)
    {
      InReady(l, d, r, c, i);
      InRepr(l, r);
      NodeInRepr(c);
      assert lists.Keys == Rings.ALL_RINGS && Distinct(nodes) && sentinel !in nodes;
      hide *;
      PutIn(l, r, c, lists[r], i, prev, nodes[c], next);
      ShowsAfter(l, d, r, c);
    }

    lemma NodeInRepr(c: nat)
      requires c < |nodes|
      ensures nodes[c] in Repr()
    {
    }

    lemma AppendGains(l: Rings.Layout, c: nat, r: Rings.Ring)
      requires l.Ok() && lists.Keys == Rings.ALL_RINGS && |nodes| == |l.owner| && c < |nodes| && l.owner[c].NoRing?
      requires r in lists && !r.RootsRing?
      ensures Gains(l, l.Append(c, r), r, c, |OnList(l.rings[r], r, l.sentinel)|)
    {
      var d, a := l.Append(c, r), OnList(l.rings[r], r, l.sentinel);
      Rings.AppendOk(l, c, r);
      hide Rings.Layout.Ok, OnList;
      AppendOnList(l.rings[r], c, r, l.sentinel);
      assert a[..|a|] + [NodeOf(c)] + a[|a|..] == a + [NodeOf(c)];
    }

    lemma InsertRootGains(l: Rings.Layout, c: nat, before: bool)
      requires l.Ok() && lists.Keys == Rings.ALL_RINGS && |nodes| == |l.owner| && c < |nodes| && l.owner[c].NoRing?
      ensures Gains(l, l.InsertRoot(c, before), Rings.RootsRing, c, if before then l.sentinel else l.sentinel + 1)
    {
      var d := l.InsertRoot(c, before);
      Rings.InsertRootOk(l, c, before);
      assert l.sentinel <= |l.rings[Rings.RootsRing]|;
      hide Rings.Layout.Ok, OnList;
      PutOnList(l.rings[Rings.RootsRing], c, l.sentinel, before);
      forall x | x in lists && x != Rings.RootsRing
        ensures OnList(d.rings[x], x, d.sentinel) == OnList(l.rings[x], x, l.sentinel)
      {
        OnListAny(l.rings[x], x, d.sentinel, l.sentinel);
      }
    }

    /** What the layout's functions ask for. */
    lemma Ready(l: Rings.Layout, c: nat)
      requires Shows(l)
      ensures l.Ok() && l.rings.Keys == lists.Keys == Rings.ALL_RINGS && |nodes| == |l.owner|
      ensures l.sentinel <= |l.rings[Rings.RootsRing]|
      ensures c < |nodes| ==> l.Detach(c).owner == l.owner[c := Rings.NoRing] && l.Detach(c).rings.Keys == lists.Keys
    {
    }

    lemma ListOf(l: Rings.Layout, r: Rings.Ring)
      requires Shows(l) && r in lists && r in l.rings
      ensures lists[r].Valid() && lists[r].nodes == OnList(l.rings[r], r, l.sentinel)
    {
    }

    /** dlnode_remove */
    method Detach(c: nat, ghost l: Rings.Layout)
      requires Shows(l) && c < |nodes| && !l.owner[c].NoRing?
      modifies Repr()
      ensures Shows(l.Detach(c))
    {
      Ready(l, c);
      ghost var d, r := l.Detach(c), l.owner[c];
      ghost var i := DetachLoses(l, c);
      hide *;
      Unlink(c, l, d, r, i);
    }

    /** dlist_insertlast */
    method Append(c: nat, r: Rings.Ring, ghost l: Rings.Layout)
      requires Shows(l) && c < |nodes| && l.owner[c].NoRing? && r in lists && r in l.rings && !r.RootsRing?
      modifies Repr()
      ensures Shows(l.Append(c, r))
    {
      Ready(l, c);
      ListOf(l, r);
      ghost var d := l.Append(c, r);
      AppendGains(l, c, r);
      hide *;
      var list := lists[r];
      var last := list.Last();
      Link(c, l, d, r, |list.nodes|, last, list.hdr);
    }

    /** memcell_to_boundary and its like, behind dlnode_remove */
    method MoveTo(c: nat, r: Rings.Ring, ghost l: Rings.Layout)
      requires Shows(l) && c < |nodes| && !l.owner[c].NoRing? && r in lists && !r.RootsRing?
      modifies Repr()
      ensures Shows(Rings.Moved(l, c, r))
    {
      Ready(l, c);
      hide Repr, Shows, Rings.Layout.Detach, Rings.Layout.Append;
      Detach(c, l);
      Append(c, r, l.Detach(c));
    }

    /** Where the sentinel is, and what its neighbours are. */
    lemma AtSentinel(l: Rings.Layout)
      requires Shows(l)
      ensures Rings.RootsRing in lists && Rings.RootsRing in l.rings
      ensures var list, k := lists[Rings.RootsRing], l.sentinel;
        && list.Valid() && list.nodes == OnList(l.rings[Rings.RootsRing], Rings.RootsRing, k)
        && k < |list.nodes| && list.nodes[k] == sentinel
        && sentinel.prev == ([list.hdr] + list.nodes)[k] && ([list.hdr] + list.nodes)[k + 1] == sentinel
        && sentinel.next == if k + 1 == |list.nodes| then list.hdr else list.nodes[k + 1]
    {
      Ready(l, 0);
      ListOf(l, Rings.RootsRing);
      Neighbours(lists[Rings.RootsRing], l.sentinel);
    }

    /** dlnode_insertprev and dlnode_insertnext at the sentinel */
    method InsertRoot(c: nat, before: bool, ghost l: Rings.Layout)
      requires Shows(l) && c < |nodes| && l.owner[c].NoRing?
      modifies Repr()
      ensures l.Ok() && Shows(l.InsertRoot(c, before))
    {
      Ready(l, c);
      AtSentinel(l);
      ghost var d, i := l.InsertRoot(c, before), if before then l.sentinel else l.sentinel + 1;
      InsertRootGains(l, c, before);
      hide *;
      var prev: DlNode, next: DlNode := sentinel, sentinel;
      if before {
        prev := sentinel.prev;
      } else {
        next := sentinel.next;
      }
      Link(c, l, d, Rings.RootsRing, i, prev, next);
    }

    /** memcell_to_roots_unproc and memcell_to_roots_proc, behind dlnode_remove */
    method MoveToRoots(c: nat, before: bool, ghost l: Rings.Layout)
      requires Shows(l) && c < |nodes| && !l.owner[c].NoRing?
      modifies Repr()
      ensures l.Ok() && Shows(Rings.MovedToRoots(l, c, before))
    {
      Ready(l, c);
      hide Repr, Shows, Rings.Layout.Detach, Rings.Layout.InsertRoot;
      Detach(c, l);
      InsertRoot(c, before, l.Detach(c));
    }

    /** The layout behind the end of a collection cycle. */
    ghost function Swapped(l: Rings.Layout): Rings.Layout
      requires Rings.RootsRing in l.rings
    {
      l.(sentinel := |l.rings[Rings.RootsRing]|, reachable := l.Unproc())
    }

    lemma SwapReady(l: Rings.Layout)
      requires Shows(l) && l.sentinel == 0
      ensures Rings.RootsRing in lists && l.rings.Keys == lists.Keys == Rings.ALL_RINGS
      ensures Separate() && Rest(l, Rings.RootsRing, |nodes|) && Distinct(nodes) && sentinel !in nodes
      ensures Swapped(l).Ok() && Swapped(l).rings == l.rings && Swapped(l).owner == l.owner && |l.owner| == |nodes|
      ensures var list, s := lists[Rings.RootsRing], l.rings[Rings.RootsRing];
        list.nodes == [sentinel] + Nodes(s) && Without(list.nodes, 0) == Nodes(s)
      ensures sentinel in Repr()
    {
      SwapOnList(l.rings[Rings.RootsRing]);
    }

    lemma SwapAfter(l: Rings.Layout)
      requires Rings.RootsRing in lists && l.rings.Keys == lists.Keys == Rings.ALL_RINGS && l.sentinel == 0
      requires Separate() && Rest(l, Rings.RootsRing, |nodes|) && Distinct(nodes) && sentinel !in nodes
      requires Swapped(l).Ok()
      requires lists[Rings.RootsRing].nodes == Nodes(l.rings[Rings.RootsRing]) + [sentinel]
      ensures Shows(Swapped(l))
    {
      hide Separate, Rings.Layout.Ok, OnList;
      var m := Swapped(l);
      SwapOnList(l.rings[Rings.RootsRing]);
      forall x | x in lists && x != Rings.RootsRing
        ensures lists[x].nodes == OnList(m.rings[x], x, m.sentinel)
      {
        OnListAny(l.rings[x], x, 0, m.sentinel);
      }
    }

    /** At the end of a cycle the sentinel goes from the front of the roots to their end. */
    method AdvanceSentinel(ghost l: Rings.Layout)
      requires Shows(l) && l.sentinel == 0
      modifies Repr()
      ensures Rings.RootsRing in l.rings && Shows(Swapped(l))
    {
      SwapReady(l);
      InRepr(l, Rings.RootsRing);
      hide *;
      var list := lists[Rings.RootsRing];
      assert list.nodes[0] == sentinel;
      TakeOut(l, Rings.RootsRing, |nodes|, sentinel, list, 0);
      PutLast(l, Rings.RootsRing, |nodes|, list, sentinel);
      SwapAfter(l);
    }

    lemma SeparateValid(r: Rings.Ring)
      requires Separate() && r in lists
      ensures lists[r].Valid()
    {
    }

    lemma MoreNodes(n: DlNode, s: seq<nat>)
      requires forall i :: 0 <= i < |s| ==> s[i] < |nodes|
      ensures this.(nodes := nodes + [n]).Nodes(s) == Nodes(s)
    {
    }

    lemma MoreOnList(n: DlNode, s: seq<nat>, r: Rings.Ring, k: nat)
      requires forall i :: 0 <= i < |s| ==> s[i] < |nodes|
      ensures this.(nodes := nodes + [n]).OnList(s, r, k) == OnList(s, r, k)
    {
      hide Nodes;
      MoreNodes(n, s);
      if k <= |s| {
        MoreNodes(n, s[..k]);
        MoreNodes(n, s[k..]);
      }
    }

    /** The layout with one cell more, which is on no list yet. */
    function Longer(l: Rings.Layout): Rings.Layout {
      l.(owner := l.owner + [Rings.NoRing])
    }

    lemma LongerOk(l: Rings.Layout)
      requires l.Ok()
      ensures Longer(l).Ok()
      ensures forall r, i :: r in l.rings && 0 <= i < |l.rings[r]| ==> l.rings[r][i] < |l.owner|
    {
      forall r | r in l.rings
        ensures Rings.Holds(l.rings[r], Longer(l).owner, r)
        ensures forall i :: 0 <= i < |l.rings[r]| ==> l.rings[r][i] < |l.owner|
      {
        assert Rings.Holds(l.rings[r], l.owner, r);
        assert forall i :: 0 <= i < |l.rings[r]| ==> l.rings[r][i] in l.rings[r];
      }
    }

    lemma Extends(l: Rings.Layout, n: DlNode)
      requires Shows(l) && n.owner == null && n !in nodes && n != sentinel
      ensures this.(nodes := nodes + [n]).Shows(Longer(l))
    {
      var h := this.(nodes := nodes + [n]);
      LongerOk(l);
      hide Rings.Layout.Ok, OnList, DlList.Valid, Separate;
      forall r | r in lists
        ensures h.OnList(l.rings[r], r, l.sentinel) == OnList(l.rings[r], r, l.sentinel)
      {
        MoreOnList(n, l.rings[r], r, l.sentinel);
      }
      SeparateMore(n);
    }

    lemma SeparateMore(n: DlNode)
      requires Separate()
      ensures this.(nodes := nodes + [n]).Separate()
    {
    }

    lemma NewReady(l: Rings.Layout, n: DlNode)
      requires Shows(l) && n.owner == null && n !in nodes && n != sentinel
      ensures var h, c := this.(nodes := nodes + [n]), |nodes|;
        && h.Shows(Longer(l)) && Longer(l).Ok() && c < |h.nodes| && h.Repr() == Repr() + {n}
        && c < |Longer(l).owner| && Longer(l).owner[c].NoRing?
    {
      hide OnList, Separate, Filled, Rings.Layout.Ok, DlList.Valid;
      Ready(l, 0);
      Extends(l, n);
      LongerOk(l);
      ReprMore(n);
    }

    lemma ReprMore(n: DlNode)
      ensures this.(nodes := nodes + [n]).Repr() == Repr() + {n}
    {
    }

    /** A new cell, with the node that is its header, becomes an unprocessed root. */
    method NewCell(n: DlNode, ghost l: Rings.Layout) returns (h: Heads)
      requires Shows(l) && n.owner == null && n !in nodes && n != sentinel
      modifies Repr(), n
      ensures h == this.(nodes := nodes + [n])
      ensures Longer(l).Ok() && h.Shows(Longer(l).InsertRoot(|nodes|, true))
    {
      NewReady(l, n);
      hide Repr, Shows, Longer, Rings.Layout.Ok, Rings.Layout.InsertRoot;
      h := this.(nodes := nodes + [n]);
      h.InsertRoot(|nodes|, true, Longer(l));
    }

    lemma OnListAny(s: seq<nat>, r: Rings.Ring, k: nat, m: nat)
      requires !r.RootsRing? || k == m
      ensures OnList(s, r, k) == OnList(s, r, m)
    {
    }
  }

  lemma OnRing(list: DlList, i: nat)
    requires list.Valid() && i < |list.nodes|
    ensures list.nodes[i].owner == list
  {
    assert list.nodes[i] in [list.hdr] + list.nodes;
  }

  lemma Neighbours(list: DlList, i: nat)
    requires list.Valid() && i < |list.nodes|
    ensures list.nodes[i].prev == ([list.hdr] + list.nodes)[i]
    ensures list.nodes[i].next == if i + 1 == |list.nodes| then list.hdr else list.nodes[i + 1]
  {
    var ring := [list.hdr] + list.nodes;
    assert ring[i + 1] == list.nodes[i] && ring[i].next == ring[i + 1] && ring[i + 1].prev == ring[i];
    assert i + 1 < |list.nodes| ==> ring[i + 2] == list.nodes[i + 1];
  }

  lemma NotOn(list: DlList, n: DlNode)
    requires list.Valid() && n.owner == null
    ensures n != list.hdr && n !in list.nodes
  {
    assert forall y :: y in list.nodes ==> y in [list.hdr] + list.nodes;
    assert list.hdr in [list.hdr] + list.nodes;
  }

  /** dlnode_insert, with the list it is for */
  method InsertBetween(ghost list: DlList, ghost k: nat, prev: DlNode, n: DlNode, next: DlNode)
    requires list.Valid() && k <= |list.nodes| && n.owner == null
    requires prev == ([list.hdr] + list.nodes)[k]
    requires next == if k == |list.nodes| then list.hdr else list.nodes[k]
    modifies list, list.hdr, list.nodes, n
    ensures list.Valid() && list.nodes == old(list.nodes[..k] + [n] + list.nodes[k..]) && n.owner == list
  {
    hide Ring;
    ghost var was, ring := list.nodes, [list.hdr] + list.nodes;
    NotOn(list, n);
    Insert(ring, list, k, prev, n, next);
    list.nodes := was[..k] + [n] + was[k..];
    assert ring[..k + 1] + [n] + ring[k + 1..] == [list.hdr] + list.nodes;
    InsertedOwner(ring, k, n, list);
  }

  lemma InsertedOwner(ring: seq<DlNode>, k: nat, n: DlNode, list: DlList)
    requires k < |ring| && Ring(ring[..k + 1] + [n] + ring[k + 1..], list)
    ensures n.owner == list
  {
    assert (ring[..k + 1] + [n] + ring[k + 1..])[k + 1] == n;
  }

  ghost predicate Apiece(ls: seq<DlList>) {
    forall i, j :: 0 <= i < j < |ls| ==> ls[i] != ls[j]
  }

  function Index(r: Rings.Ring): nat {
    match r
    case FreeRing => 0
    case PendingRing => 1
    case RootsRing => 2
    case BoundaryRing => 3
    case WhiteRing => 4
    case BlackRing => 5
    case NoRing => 6
  }

  function HeadMap(free: DlList, pending: DlList, roots: DlList, boundary: DlList, white: DlList, black: DlList)
    : (m: map<Rings.Ring, DlList>)
    ensures m.Keys == Rings.ALL_RINGS
  {
    map[Rings.FreeRing := free, Rings.PendingRing := pending, Rings.RootsRing := roots,
        Rings.BoundaryRing := boundary, Rings.WhiteRing := white, Rings.BlackRing := black]
  }

  /** memory_state_init */
  method Init() returns (h: Heads)
    ensures h.Shows(NoCells())
  {
    hide DlList.Valid, Ring, Heads.Separate, Heads.Filled, HeadMap;
    var free, pending, roots, boundary, white, black, s := SixLists();
    h := Heads(HeadMap(free, pending, roots, boundary, white, black), s, []);
    h.AllSeparate(free, pending, roots, boundary, white, black);
    h.AllFilled(free, pending, roots, boundary, white, black);
    NoCellsOk();
  }

  /** The six lists, and the sentinel on the roots. */
  method SixLists() returns
      (free: DlList, pending: DlList, roots: DlList, boundary: DlList, white: DlList, black: DlList, sentinel: DlNode)
    ensures free.Valid() && pending.Valid() && roots.Valid() && boundary.Valid() && white.Valid() && black.Valid()
    ensures free.nodes == pending.nodes == boundary.nodes == white.nodes == black.nodes == []
    ensures roots.nodes == [sentinel]
    ensures Apiece([free, pending, roots, boundary, white, black])
  {
    hide DlList.Valid, Apiece;
    roots := new DlList();
    sentinel := new DlNode();
    roots.InsertLast(sentinel);
    free := new DlList();
    pending := new DlList();
    boundary := new DlList();
    assert free != pending && roots !in {free, pending} && boundary !in {free, pending, roots};
    white := new DlList();
    assert white !in {free, pending, roots, boundary};
    black := new DlList();
    ApieceSix(free, pending, roots, boundary, white, black);
  }

  lemma ApieceSix(a: DlList, b: DlList, c: DlList, d: DlList, e: DlList, f: DlList)
    requires a != b && c !in {a, b} && d !in {a, b, c} && e !in {a, b, c, d} && f !in {a, b, c, d, e}
    ensures Apiece([a, b, c, d, e, f])
  {
  }

  lemma NoCellsOk()
    ensures NoCells().Ok()
  {
  }
}
