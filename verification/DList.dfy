/** Circular doubly linked lists whose nodes point at the list that owns them. Every operation on the
    ring of pointers refines the matching operation on the sequence of nodes. */
module DList {

  class DlNode {
    var prev: DlNode?
    var next: DlNode?
    var owner: DlList?

    /** dlnode_init */
    constructor ()
      ensures prev == null && next == null && owner == null
    {
      prev, next, owner := null, null, null;
    }
  }

  /** dlnode_join */
  method Join(n: DlNode, m: DlNode)
    modifies n`next, m`prev
    ensures n.next == m && m.prev == n
  {
    n.next := m;
    m.prev := n;
  }

  ghost predicate Distinct(ring: seq<DlNode>) {
    forall i, j :: 0 <= i < j < |ring| ==> ring[i] != ring[j]
  }

  /** Neighbours of the sequence point at each other, and so do its two ends. */
  ghost predicate Linked(ring: seq<DlNode>)
    requires |ring| > 0
    reads ring
  {
    && (forall i, j :: 0 <= i < |ring| && j == i + 1 < |ring| ==> ring[i].next == ring[j] && ring[j].prev == ring[i])
    && ring[|ring| - 1].next == ring[0] && ring[0].prev == ring[|ring| - 1]
  }

  /** The nodes of the sequence form a ring, and all name l as their owner. */
  ghost predicate Ring(ring: seq<DlNode>, l: DlList)
    reads ring
  {
    && |ring| > 0
    && Distinct(ring)
    && (forall n :: n in ring ==> n.owner == l)
    && Linked(ring)
  }

  class DlList {
    const hdr: DlNode
    ghost var nodes: seq<DlNode>

    ghost predicate Valid()
      reads this, hdr, nodes
    {
      Ring([hdr] + nodes, this)
    }

    /** dlist_init */
    constructor ()
      ensures Valid() && nodes == [] && fresh(hdr)
    {
      var h := new DlNode();
      hdr := h;
      nodes := [];
      new;
      hdr.prev, hdr.next, hdr.owner := hdr, hdr, this;
    }

    method IsEmpty() returns (empty: bool)
      requires Valid()
      ensures empty <==> nodes == []
    {
      ghost var ring := [hdr] + nodes;
      assert ring[0] == hdr && (nodes != [] ==> ring[1] == nodes[0]);
      empty := hdr.next == hdr;
    }

    method First() returns (n: DlNode)
      requires Valid()
      ensures n == if nodes == [] then hdr else nodes[0]
    {
      ghost var ring := [hdr] + nodes;
      assert ring[0] == hdr && (nodes != [] ==> ring[1] == nodes[0]);
      n := hdr.next;
    }

    method Last() returns (n: DlNode)
      requires Valid()
      ensures n == if nodes == [] then hdr else nodes[|nodes| - 1]
    {
      ghost var ring := [hdr] + nodes;
      assert ring[0] == hdr;
      n := hdr.prev;
    }

    /** dlist_insertlast */
    method InsertLast(n: DlNode)
      requires Valid() && n.owner == null
      modifies this, hdr, nodes, n
      ensures Valid() && nodes == old(nodes) + [n]
    {
      ghost var ring := [hdr] + nodes;
      assert ring[0] == hdr;
      Insert(ring, this, |nodes|, hdr.prev, n, hdr);
      nodes := nodes + [n];
      assert [hdr] + nodes == ring[..|ring|] + [n] + ring[|ring|..];
    }

    /** dlist_insertfirst */
    method InsertFirst(n: DlNode)
      requires Valid() && n.owner == null
      modifies this, hdr, nodes, n
      ensures Valid() && nodes == [n] + old(nodes)
    {
      ghost var ring := [hdr] + nodes;
      assert ring[0] == hdr && (nodes != [] ==> ring[1] == nodes[0]);
      Insert(ring, this, 0, hdr, n, hdr.next);
      nodes := [n] + nodes;
      assert [hdr] + nodes == ring[..1] + [n] + ring[1..];
    }

    /** dlnode_remove of the list's node number i. */
    method Take(n: DlNode, ghost i: nat)
      requires Valid() && i < |nodes| && n == nodes[i]
      modifies this, hdr, nodes
      ensures Valid() && nodes == old(nodes[..i] + nodes[i + 1..])
      ensures n.owner == null && n !in nodes && n != hdr
    {
      ghost var ring := [hdr] + nodes;
      Remove(ring, this, i + 1, n);
      nodes := nodes[..i] + nodes[i + 1..];
      RemoveDistinct(ring, i + 1);
      assert [hdr] + nodes == ring[..i + 1] + ring[i + 2..];
      assert n !in [hdr] + nodes;
    }
  }

  lemma InsertDistinct(was: seq<DlNode>, i: nat, n: DlNode)
    requires i < |was| && Distinct(was) && n !in was
    ensures Distinct(was[..i + 1] + [n] + was[i + 1..])
    ensures forall x :: x in was[..i + 1] + [n] + was[i + 1..] <==> x in was || x == n
  {
    var ring := was[..i + 1] + [n] + was[i + 1..];
    assert was == was[..i + 1] + was[i + 1..];
    forall x, y | 0 <= x < y < |ring| ensures ring[x] != ring[y] {
      assert ring[x] == if x <= i then was[x] else if x == i + 1 then n else was[x - 1];
      assert ring[y] == if y <= i then was[y] else if y == i + 1 then n else was[y - 1];
    }
  }

  lemma RemoveDistinct(was: seq<DlNode>, i: nat)
    requires 0 < i < |was| && Distinct(was)
    ensures Distinct(was[..i] + was[i + 1..])
    ensures forall x :: x in was[..i] + was[i + 1..] <==> x in was && x != was[i]
  {
    var ring := was[..i] + was[i + 1..];
    assert was == was[..i] + [was[i]] + was[i + 1..];
    assert forall x :: 0 <= x < |ring| ==> ring[x] == if x < i then was[x] else was[x + 1];
    forall x | x in was && x != was[i] ensures x in ring {
      var j :| 0 <= j < |was| && was[j] == x;
      assert ring[if j < i then j else j - 1] == x;
    }
  }

  /** Neighbours point at each other, except the one at i and the one behind it. */
  ghost predicate LinkedBut(was: seq<DlNode>, i: nat)
    requires i < |was|
    reads was
  {
    && (forall x, y ::
      0 <= x < |was| && y == x + 1 < |was| && x != i ==> was[x].next == was[y] && was[y].prev == was[x])
    && (i != |was| - 1 ==> was[|was| - 1].next == was[0] && was[0].prev == was[|was| - 1])
  }

  lemma InsertLinked(was: seq<DlNode>, i: nat, n: DlNode, next: DlNode)
    requires i < |was| && next == was[if i + 1 == |was| then 0 else i + 1] && LinkedBut(was, i)
    requires was[i].next == n && n.prev == was[i] && n.next == next && next.prev == n
    ensures Linked(was[..i + 1] + [n] + was[i + 1..])
  {
    var ring := was[..i + 1] + [n] + was[i + 1..];
    assert forall x :: 0 <= x < |ring| ==> ring[x] == if x <= i then was[x] else if x == i + 1 then n else was[x - 1];
    forall x, y | 0 <= x < |ring| && y == x + 1 < |ring| ensures ring[x].next == ring[y] && ring[y].prev == ring[x] {
      if x < i {
        assert was[x].next == was[y] && was[y].prev == was[x];
      } else if x > i + 1 {
        assert was[x - 1].next == was[x] && was[x].prev == was[x - 1];
      }
    }
  }

  /** dlnode_insert: put n between two neighbours of a ring. */
  method Insert(ghost was: seq<DlNode>, ghost l: DlList, ghost i: nat, prev: DlNode, n: DlNode, next: DlNode)
    requires Ring(was, l) && i < |was|
    requires prev == was[i] && next == was[if i + 1 == |was| then 0 else i + 1]
    requires n.owner == null
    modifies prev, n, next
    ensures Ring(was[..i + 1] + [n] + was[i + 1..], l)
  {
    assert prev.next == next && next.prev == prev;
    assert prev.owner != null && prev.owner == next.owner;
    InsertDistinct(was, i, n);
    Join(prev, n);
    Join(n, next);
    n.owner := prev.owner;
    InsertLinked(was, i, n, next);
  }

  /** dlnode_remove: its neighbours close up around n, which is left without an owner. */
  method Remove(ghost was: seq<DlNode>, ghost l: DlList, ghost i: nat, n: DlNode)
    requires Ring(was, l) && 0 < i < |was| && n == was[i]
    modifies was
    ensures Ring(was[..i] + was[i + 1..], l)
    ensures n.owner == null
  {
    assert n.owner != null;
    ghost var after := was[if i + 1 == |was| then 0 else i + 1];
    assert was[i - 1].next == was[i] && n.prev == was[i - 1] && n.next == after;
    RemoveDistinct(was, i);
    Join(n.prev, n.next);
    n.owner := null;
    ghost var ring := was[..i] + was[i + 1..];
    forall x, y | 0 <= x < |ring| && y == x + 1 < |ring| ensures ring[x].next == ring[y] && ring[y].prev == ring[x] {
      if x < i - 1 {
        assert ring[x] == was[x] && ring[y] == was[y];
        assert old(was[x].next) == was[y] && old(was[y].prev) == was[x];
      } else if x > i - 1 {
        assert ring[x] == was[x + 1] && ring[y] == was[x + 2];
        assert old(was[x + 1].next) == was[x + 2] && old(was[x + 2].prev) == was[x + 1];
      } else {
        assert ring[i - 1] == was[i - 1] && ring[i] == after;
      }
    }
    assert ring[0] == was[0] && ring[|ring| - 1] == if i + 1 == |was| then was[i - 1] else was[|was| - 1];
  }

  /** The owner pointer decides membership: rings of different lists share no node. */
  lemma RingsApart(a: seq<DlNode>, l: DlList, b: seq<DlNode>, m: DlList)
    requires Ring(a, l) && Ring(b, m) && l != m
    ensures forall n :: n in a ==> n !in b
  {
    forall n | n in a ensures n !in b {
      assert n.owner == l;
    }
  }

  /** A list stays as it is when its nodes do. */
  twostate lemma Undisturbed(l: DlList)
    requires old(l.Valid()) && l.nodes == old(l.nodes)
    requires forall x ::
      x in [l.hdr] + l.nodes ==> x.next == old(x.next) && x.prev == old(x.prev) && x.owner == old(x.owner)
    ensures l.Valid()
  {
  }

  /** How the collector moves a cell between two lists; neither ring disturbs the other. */
  method MoveLast(l: DlList, ghost i: nat, n: DlNode, m: DlList)
    requires l.Valid() && m.Valid() && l != m && i < |l.nodes| && n == l.nodes[i]
    modifies l, l.hdr, l.nodes, m, m.hdr, m.nodes
    ensures l.Valid() && m.Valid()
    ensures l.nodes == old(l.nodes[..i] + l.nodes[i + 1..])
    ensures m.nodes == old(m.nodes) + [n]
  {
    hide Ring, Linked;
    Apart(l, m);
    ghost var a := l.nodes;
    l.Take(n, i);
    assert forall x :: x in [m.hdr] + m.nodes ==> x != l.hdr && x !in a;
    Undisturbed(m);
    label Taken:
    assert forall x :: x in [l.hdr] + l.nodes ==> x != m.hdr && x !in m.nodes && x != n;
    m.InsertLast(n);
    Undisturbed@Taken(l);
  }

  lemma Apart(l: DlList, m: DlList)
    requires l.Valid() && m.Valid() && l != m
    ensures l.hdr != m.hdr && l.hdr !in m.nodes && m.hdr !in l.nodes
    ensures forall n :: n in l.nodes ==> n !in m.nodes
  {
    var a, b := [l.hdr] + l.nodes, [m.hdr] + m.nodes;
    RingsApart(a, l, b, m);
    assert l.hdr in a && m.hdr in b;
    assert forall x :: (x in l.nodes ==> x in a) && (x in m.nodes ==> x in b);
  }
}
