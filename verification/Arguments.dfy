/** The argument list of a call as it is built: cells that are linked in place, while frames, and through them
    continuations, hold on to its first and its last cell. */
module Arguments {
  import opened Options

  datatype ArgCell<V> = ArgCell(val: V, next: Option<nat>)

  /** Every evaluated argument makes a cell: the first one of its list, or one behind the cell that the frame has
      as the last one. */
  datatype Arg<V> = Arg(from: Option<nat>, val: V)

  /** All arguments that were ever evaluated, in the order of time; argument number i has made cell i. */
  predicate IsLog<V>(log: seq<Arg<V>>) {
    forall i :: 0 <= i < |log| && log[i].from.Some? ==> log[i].from.value < i
  }

  /** node_cons_new, and node_cons_patch_cdr on the last cell if there is one */
  function Add<V>(cells: seq<ArgCell<V>>, from: Option<nat>, val: V): seq<ArgCell<V>> {
    (if from.Some? && from.value < |cells|
     then cells[from.value := cells[from.value].(next := Some(|cells|))] else cells) + [ArgCell(val, None)]
  }

  function Build<V>(log: seq<Arg<V>>): seq<ArgCell<V>> {
    if log == [] then []
    else Add(Build(log[..|log| - 1]), log[|log| - 1].from, log[|log| - 1].val)
  }

  // ----- the list that a frame means, and the list that there is

  /** The cells up to c, in the order in which they were added: what the frame that has added c goes on with. */
  function Meant<V>(log: seq<Arg<V>>, c: nat): seq<nat>
    requires IsLog(log) && c < |log|
  {
    if log[c].from.None? then [c] else Meant(log, log[c].from.value) + [c]
  }

  /** The cells that the links lead to. */
  function Linked<V>(cells: seq<ArgCell<V>>, c: nat): seq<nat>
    decreases |cells| - c
  {
    if c >= |cells| then []
    else
      var next := cells[c].next;
      if next.Some? && next.value > c then [c] + Linked(cells, next.value) else [c]
  }

  /** The most recent cell that was added behind c. */
  function Latest<V>(log: seq<Arg<V>>, c: nat): Option<nat> {
    if log == [] then None
    else if log[|log| - 1].from == Some(c) then Some(|log| - 1)
    else Latest(log[..|log| - 1], c)
  }

  /** Up to c each cell's most recent successor is the next one, and c's is end. */
  predicate Intact<V>(log: seq<Arg<V>>, c: nat, end: Option<nat>)
    requires IsLog(log) && c < |log|
    decreases c
  {
    Latest(log, c) == end && (log[c].from.Some? ==> Intact(log, log[c].from.value, Some(c)))
  }

  lemma {:induction false} BuildIs<V>(log: seq<Arg<V>>)
    requires IsLog(log)
    ensures |Build(log)| == |log|
    ensures forall i :: 0 <= i < |log| ==> Build(log)[i] == ArgCell(log[i].val, Latest(log, i))
  {
    if log != [] {
      var was := log[..|log| - 1];
      BuildIs(was);
      NoneYet(was, |log| - 1);
    }
  }

  lemma {:induction false} NoneYet<V>(log: seq<Arg<V>>, c: nat)
    requires IsLog(log) && |log| <= c
    ensures Latest(log, c) == None
  {
    if log != [] {
      NoneYet(log[..|log| - 1], c);
    }
  }

  lemma {:induction false} LatestIs<V>(log: seq<Arg<V>>, c: nat)
    requires IsLog(log)
    ensures Latest(log, c).Some? ==> c < Latest(log, c).value < |log| && log[Latest(log, c).value].from == Some(c)
    ensures forall e :: 0 <= e < |log| && log[e].from == Some(c) ==> Latest(log, c).Some? && e <= Latest(log, c).value
  {
    if log != [] {
      LatestIs(log[..|log| - 1], c);
    }
  }

  lemma LinksForward<V>(log: seq<Arg<V>>)
    requires IsLog(log)
    ensures var cells := Build(log);
      |cells| == |log| && forall i :: 0 <= i < |cells| && cells[i].next.Some? ==> i < cells[i].next.value < |cells|
  {
    BuildIs(log);
    forall i | 0 <= i < |log| && Build(log)[i].next.Some?
      ensures i < Build(log)[i].next.value < |log|
    {
      LatestIs(log, i);
    }
  }

  /** Following the links from the first cell, up to the cell c and what follows it. */
  lemma {:induction false} LinkedIs<V>(log: seq<Arg<V>>, c: nat)
    requires IsLog(log) && c < |log| && (log[c].from.Some? ==> Intact(log, log[c].from.value, Some(c)))
    ensures var m := Meant(log, c);
      Linked(Build(log), m[0]) == m[..|m| - 1] + Linked(Build(log), c)
    decreases c
  {
    BuildIs(log);
    if log[c].from.Some? {
      var p := log[c].from.value;
      LinkedIs(log, p);
      var m := Meant(log, p);
      assert Linked(Build(log), p) == [p] + Linked(Build(log), c);
      assert m == m[..|m| - 1] + [p];
    }
  }

  lemma {:induction false} MeantIs<V>(log: seq<Arg<V>>, c: nat)
    requires IsLog(log) && c < |log|
    ensures var m := Meant(log, c);
      && |m| > 0 && m[|m| - 1] == c && (forall i :: 0 <= i < |m| ==> m[i] <= c)
      && forall i, j :: 0 < i < |m| && j == i - 1 ==> log[m[i]].from == Some(m[j])
    decreases c
  {
    if log[c].from.Some? {
      MeantIs(log, log[c].from.value);
    }
  }

  lemma {:induction false} LinkedOrder<V>(log: seq<Arg<V>>, c: nat)
    requires IsLog(log) && c < |log|
    ensures var s := Linked(Build(log), c);
      && |s| > 0 && s[0] == c
      && (forall i, j :: 0 < i < |s| && j == i - 1 ==> Latest(log, s[j]) == Some(s[i]) && s[i] < |log|)
      && s[|s| - 1] < |log| && Latest(log, s[|s| - 1]) == None
    decreases |log| - c
  {
    BuildIs(log);
    LatestIs(log, c);
    if Latest(log, c).Some? {
      var n := Latest(log, c).value;
      var t := Linked(Build(log), n);
      LinkedOrder(log, n);
      var s := Linked(Build(log), c);
      assert s == [c] + t;
      hide Build, Latest, Linked;
      forall i, j | 0 < i < |s| && j == i - 1
        ensures Latest(log, s[j]) == Some(s[i]) && s[i] < |log|
      {
        assert s[i] == t[i - 1] && (i > 1 ==> s[j] == t[i - 2]);
      }
    }
  }

  /** The links show the list that is meant if and only if they are intact. */
  lemma ArgumentsExact<V>(log: seq<Arg<V>>, c: nat)
    requires IsLog(log) && c < |log|
    ensures Linked(Build(log), Meant(log, c)[0]) == Meant(log, c) <==> Intact(log, c, None)
  {
    var m := Meant(log, c);
    MeantIs(log, c);
    if Intact(log, c, None) {
      IntactLinks(log, c);
    } else if Linked(Build(log), m[0]) == m {
      hide Linked, Build, Meant;
      LinkedOrder(log, m[0]);
      assert m[..|m| - 1 + 1] == m;
      IntactFrom(log, c, m, |m| - 1, None);
    }
  }

  lemma IntactLinks<V>(log: seq<Arg<V>>, c: nat)
    requires IsLog(log) && c < |log| && Intact(log, c, None)
    ensures Linked(Build(log), Meant(log, c)[0]) == Meant(log, c)
  {
    var m := Meant(log, c);
    MeantIs(log, c);
    BuildIs(log);
    LinkedIs(log, c);
    assert Linked(Build(log), c) == [c];
    assert m == m[..|m| - 1] + [c];
  }

  lemma {:induction false} IntactFrom<V>(log: seq<Arg<V>>, c: nat, m: seq<nat>, k: nat, end: Option<nat>)
    requires IsLog(log) && c < |log| && k < |m| && m[k] == c && Latest(log, c) == end
    requires m[..k + 1] == Meant(log, c)
    requires forall i, j :: 0 < i < |m| && j == i - 1 ==> Latest(log, m[j]) == Some(m[i])
    ensures Intact(log, c, end)
    decreases c
  {
    if log[c].from.Some? {
      var p := log[c].from.value;
      MeantIs(log, p);
      assert m[..k + 1] == Meant(log, p) + [c];
      assert m[..k] == Meant(log, p);
      IntactFrom(log, p, m, k - 1, Some(c));
    }
  }

  // ----- what breaks a list

  /** Argument number e was added behind a cell of the list, later than the list's own next cell, if it has one. */
  predicate Spoils<V>(log: seq<Arg<V>>, c: nat, e: nat)
    requires IsLog(log) && c < |log|
  {
    && e < |log| && log[e].from.Some? && log[e].from.value in Meant(log, c)
    && forall x :: x in Meant(log, c) && x < |log| && log[x].from == log[e].from ==> x < e
  }

  lemma {:induction false} IntactUp<V>(log: seq<Arg<V>>, c: nat, end: Option<nat>)
    requires IsLog(log) && c < |log| && Intact(log, c, end)
    ensures var m := Meant(log, c);
      forall i, j :: 0 <= i < |m| && j == i + 1 ==> Latest(log, m[i]) == if j < |m| then Some(m[j]) else end
    decreases c
  {
    if log[c].from.Some? {
      IntactUp(log, log[c].from.value, Some(c));
      MeantIs(log, log[c].from.value);
    }
  }

  /** The links of a list are intact if and only if nothing has been added behind one of its cells since. */
  lemma IntactIs<V>(log: seq<Arg<V>>, c: nat)
    requires IsLog(log) && c < |log|
    ensures Intact(log, c, None) <==> forall e: nat :: !Spoils(log, c, e)
  {
    var m := Meant(log, c);
    MeantIs(log, c);
    if Intact(log, c, None) {
      IntactUp(log, c, None);
      forall e: nat
        ensures !Spoils(log, c, e)
      {
        if e < |log| && log[e].from.Some? && log[e].from.value in m {
          var i :| 0 <= i < |m| && m[i] == log[e].from.value;
          LatestIs(log, m[i]);
          if i + 1 < |m| {
            assert m[i + 1] in m && log[m[i + 1]].from == log[e].from && e <= m[i + 1];
          }
        }
      }
    } else if forall e: nat :: !Spoils(log, c, e) {
      NotSpoiled(log, c);
      assert m[..|m|] == m;
      IntactFrom(log, c, m, |m| - 1, None);
    }
  }

  /** The only successor of a cell on its list is the next cell. */
  lemma NextMeant<V>(log: seq<Arg<V>>, c: nat, i: nat, x: nat)
    requires IsLog(log) && c < |log| && i < |Meant(log, c)| && x in Meant(log, c) && x < |log|
    requires log[x].from == Some(Meant(log, c)[i])
    ensures i + 1 < |Meant(log, c)| && x == Meant(log, c)[i + 1]
  {
    var m := Meant(log, c);
    MeantIs(log, c);
    MeantRises(log, c);
    var k :| 0 <= k < |m| && m[k] == x;
    assert log[m[k]].from == Some(m[k - 1]);
  }

  lemma NotSpoiled<V>(log: seq<Arg<V>>, c: nat)
    requires IsLog(log) && c < |log| && forall e: nat :: !Spoils(log, c, e)
    ensures Latest(log, c) == None
    ensures var m := Meant(log, c); forall i, j :: 0 < i < |m| && j == i - 1 ==> Latest(log, m[j]) == Some(m[i])
  {
    var m := Meant(log, c);
    MeantIs(log, c);
    MeantRises(log, c);
    forall i, j | 0 <= i < |m| && j == i + 1
      ensures Latest(log, m[i]) == if j < |m| then Some(m[j]) else None
    {
      LatestOnPath(log, c, i);
    }
    LatestOnPath(log, c, |m| - 1);
  }

  lemma LatestOnPath<V>(log: seq<Arg<V>>, c: nat, i: nat)
    requires IsLog(log) && c < |log| && i < |Meant(log, c)| && forall e: nat :: !Spoils(log, c, e)
    ensures var m := Meant(log, c);
      m[i] < |log| && Latest(log, m[i]) == if i + 1 < |m| then Some(m[i + 1]) else None
  {
    var m := Meant(log, c);
    MeantIs(log, c);
    MeantRises(log, c);
    LatestIs(log, m[i]);
    if Latest(log, m[i]).Some? {
      var e := Latest(log, m[i]).value;
      assert !Spoils(log, c, e);
      var x :| x in m && x < |log| && log[x].from == log[e].from && x >= e;
      NextMeant(log, c, i, x);
    }
  }

  lemma {:induction false} MeantRises<V>(log: seq<Arg<V>>, c: nat)
    requires IsLog(log) && c < |log|
    ensures var m := Meant(log, c);
      (forall i, j :: 0 <= i < j < |m| ==> m[i] < m[j]) && (forall i :: 0 <= i < |m| ==> m[i] < |log|) &&
      log[m[0]].from == None
    decreases c
  {
    if log[c].from.Some? {
      MeantRises(log, log[c].from.value);
      MeantIs(log, log[c].from.value);
    }
  }

  // ----- the values

  /** What a frame means: the sequence of values that the evaluator's steps append to. */
  function MeantVals<V>(log: seq<Arg<V>>, c: nat): seq<V>
    requires IsLog(log) && c < |log|
    decreases c
  {
    (if log[c].from.Some? then MeantVals(log, log[c].from.value) else []) + [log[c].val]
  }

  /** What the links show, as the call that is applied to them sees it. */
  function Shown<V>(cells: seq<ArgCell<V>>, c: nat): seq<V>
    decreases |cells| - c
  {
    if c >= |cells| then []
    else
      var next := cells[c].next;
      [cells[c].val] + if next.Some? && next.value > c then Shown(cells, next.value) else []
  }

  function ShownAt<V>(cells: seq<ArgCell<V>>, link: Option<nat>): seq<V> {
    if link.Some? then Shown(cells, link.value) else []
  }

  lemma ShownStep<V>(cells: seq<ArgCell<V>>, link: Option<nat>)
    ensures link.None? ==> ShownAt(cells, link) == []
    ensures link.Some? && link.value < |cells| ==>
      var cell := cells[link.value];
      (cell.next.Some? ==> link.value < cell.next.value) ==>
        ShownAt(cells, link) == [cell.val] + ShownAt(cells, cell.next)
  {
  }

  lemma {:induction false} MeantValsAre<V>(log: seq<Arg<V>>, c: nat)
    requires IsLog(log) && c < |log|
    ensures var m, v := Meant(log, c), MeantVals(log, c);
      |v| == |m| && forall i :: 0 <= i < |m| ==> m[i] < |log| && v[i] == log[m[i]].val
    decreases c
  {
    if log[c].from.Some? {
      MeantValsAre(log, log[c].from.value);
    }
  }

  lemma {:induction false} ShownAre<V>(cells: seq<ArgCell<V>>, c: nat)
    ensures var s, v := Linked(cells, c), Shown(cells, c);
      |v| == |s| && forall i :: 0 <= i < |s| ==> s[i] < |cells| && v[i] == cells[s[i]].val
    decreases |cells| - c
  {
    if c < |cells| && cells[c].next.Some? && cells[c].next.value > c {
      ShownAre(cells, cells[c].next.value);
    }
  }

  /** If nothing was added behind a cell of the list since, the call gets the values that the frame means. */
  lemma CallGetsMeant<V>(log: seq<Arg<V>>, c: nat)
    requires IsLog(log) && c < |log| && forall e: nat :: !Spoils(log, c, e)
    ensures Shown(Build(log), Meant(log, c)[0]) == MeantVals(log, c)
  {
    MeantIs(log, c);
    IntactIs(log, c);
    ArgumentsExact(log, c);
    MeantValsAre(log, c);
    ShownAre(Build(log), Meant(log, c)[0]);
    BuildIs(log);
  }

  /** Of three arguments a, b, c, the second one is evaluated a second time, by a continuation, to d. A continuation
      from within the third one then goes on with a, b and c, but the call gets a and d. */
  lemma ReentryMixes<V>(a: V, b: V, c: V, d: V)
    ensures var log := [Arg(None, a), Arg(Some(0), b), Arg(Some(0), d), Arg(Some(1), c)];
      IsLog(log) && MeantVals(log, 3) == [a, b, c] && Shown(Build(log), Meant(log, 3)[0]) == [a, d]
  {
    var log := [Arg(None, a), Arg(Some(0), b), Arg(Some(0), d), Arg(Some(1), c)];
    assert Meant(log, 0) == [0] && Meant(log, 1) == [0, 1] && Meant(log, 3) == [0, 1, 3];
    BuildIs(log);
    assert log[..3] == [Arg(None, a), Arg(Some(0), b), Arg(Some(0), d)];
    assert Latest(log[..3], 0) == Some(2) && Latest(log, 0) == Some(2);
    NoneYet(log[..2], 2);
    assert log[..3][..2] == log[..2];
    assert Latest(log, 2) == None;
    assert Shown(Build(log), 2) == [d];
    assert MeantVals(log, 1) == [a, b] by { assert MeantVals(log, 0) == [a]; }
  }

  // ----- in place

  class Conses<V> {
    var cells: seq<ArgCell<V>>
    ghost var log: seq<Arg<V>>

    ghost predicate Valid()
      reads this
    {
      IsLog(log) && cells == Build(log) && |cells| == |log|
    }

    /** The first and the last cell of a list are those of the frame that has added the last one. */
    ghost predicate IsList(newargs: Option<nat>, last: Option<nat>)
      reads this
      requires Valid()
    {
      if last.None? then newargs.None? else last.value < |log| && newargs == Some(Meant(log, last.value)[0])
    }

    constructor ()
      ensures Valid() && log == []
    {
      cells := [];
      log := [];
    }

    /** An argument has been evaluated. */
    method AddArg(newargs: Option<nat>, last: Option<nat>, v: V) returns (first: Option<nat>, end: Option<nat>)
      requires Valid() && IsList(newargs, last)
      modifies this
      ensures Valid() && log == old(log) + [Arg(last, v)]
      ensures IsList(first, end) && end == Some(|old(log)|)
    {
      var cell := |cells|;
      first, end := newargs, Some(cell);
      cells := cells + [ArgCell(v, None)];
      if newargs.None? {
        first := Some(cell);
      } else {
        cells := cells[last.value := cells[last.value].(next := Some(cell))];
      }
      ghost var was := log;
      log := log + [Arg(last, v)];
      assert log[..|was|] == was;
      BuildIs(log);
      if last.Some? {
        MeantPrefix(was, Arg(last, v), last.value);
        MeantIs(was, last.value);
      }
    }

    /** The arguments that a call gets. */
    method Read(newargs: Option<nat>) returns (vals: seq<V>)
      requires Valid() && (newargs.Some? ==> newargs.value < |log|)
      ensures vals == ShownAt(cells, newargs)
    {
      vals := [];
      LinksForward(log);
      hide Build, IsLog, ShownAt;
      ShownStep(cells, newargs);
      var link := newargs;
      while link.Some?
        invariant link.Some? ==> link.value < |cells|
        invariant vals + ShownAt(cells, link) == ShownAt(cells, newargs)
        decreases if link.Some? then |cells| - link.value else -1
      {
        var cell := cells[link.value];
        ShownStep(cells, link);
        assert vals + ([cell.val] + ShownAt(cells, cell.next)) == vals + [cell.val] + ShownAt(cells, cell.next);
        vals := vals + [cell.val];
        link := cell.next;
      }
      ShownStep(cells, link);
    }
  }

  lemma {:induction false} MeantPrefix<V>(log: seq<Arg<V>>, x: Arg<V>, c: nat)
    requires IsLog(log) && IsLog(log + [x]) && c < |log|
    ensures Meant(log + [x], c) == Meant(log, c)
    decreases c
  {
    if log[c].from.Some? {
      MeantPrefix(log, x, log[c].from.value);
    }
  }
}
