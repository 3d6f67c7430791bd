/** How texts and trees correspond, with elements of lists by position: what the reader makes of a list, and what the
    printer writes for one. */
module Texts {
  import opened Options
  import opened Numbers
  import opened Token
  import opened Reader
  import opened Printer
  import opened Lexing

  // ----- lists of trees by position

  function Rest(t: Tree, i: nat): Tree
    decreases i
  {
    if i == 0 then t else if t.Cons? then Rest(t.cdr, i - 1) else Nil
  }

  /** A list of these elements, in this order, with end in place of the last cdr. */
  ghost predicate IsRow(t: Tree, ts: seq<Tree>, end: Tree) {
    (forall i :: 0 <= i < |ts| ==> Rest(t, i).Cons? && Rest(t, i).car == ts[i]) && Rest(t, |ts|) == end
  }

  lemma RowCons(a: Tree, d: Tree, ts: seq<Tree>, end: Tree)
    requires IsRow(d, ts, end)
    ensures IsRow(Cons(a, d), [a] + ts, end)
  {
    assert forall i: nat :: i > 0 ==> Rest(Cons(a, d), i) == Rest(d, i - 1);
    assert forall i :: 0 < i < |[a] + ts| ==> ([a] + ts)[i] == ts[i - 1];
  }

  lemma RowParts(t: Tree, ts: seq<Tree>, end: Tree)
    requires IsRow(t, ts, end) && ts != []
    ensures t.Cons? && t.car == ts[0] && IsRow(t.cdr, ts[1..], end)
  {
    assert Rest(t, 0).Cons? && Rest(t, |ts|) == Rest(t.cdr, |ts| - 1);
    forall i | 0 <= i < |ts[1..]|
      ensures Rest(t.cdr, i).Cons? && Rest(t.cdr, i).car == ts[1..][i]
    {
      assert Rest(t, i + 1) == Rest(t.cdr, i) && ts[1..][i] == ts[i + 1];
    }
  }

  // ----- reading

  /** The tree is read from the state s, and the reader gets to the state t. */
  predicate Gives(s: TokState, tree: Tree, t: TokState) {
    ParseSexpr(s) == Parsed(PARSE_OK, tree, t)
  }

  /** A symbol is its name up to the first terminator, a number its value. */
  lemma AtomLaw(s: TokState)
    requires Chomp(s).Some?
    ensures s.tok.TokSym? ==> Gives(s, Symbol(CString(s.tok.name)), Chomp(s).value)
    ensures s.tok.TokLit? ==> Gives(s, Value(s.tok.lit), Chomp(s).value)
  {
  }

  lemma {:induction false} CStringLaw(s: seq<int>)
    ensures CString(s) <= s && 0 !in CString(s)
    ensures |CString(s)| < |s| ==> s[|CString(s)|] == 0
  {
    if s != [] && s[0] != 0 {
      CStringLaw(s[1..]);
    }
  }

  /** Parentheses with nothing between them are nil. */
  lemma NilLaw(s: TokState)
    requires s.tok.TokLParen? && Chomp(s).Some? && Chomp(s).value.tok.TokRParen? && Chomp(Chomp(s).value).Some?
    ensures Gives(s, Nil, Chomp(Chomp(s).value).value)
  {
  }

  /** An element of a list is read: not the end of the list, and not the stray quote that is never consumed. */
  predicate Element(s: TokState, tree: Tree, t: TokState) {
    !s.tok.TokEnd? && !s.tok.TokRParen? && !s.tok.TokDot? && Gives(s, tree, t) && Work(t) < Work(s)
  }

  /** Elements are read one after the other, each from where the one before it has left the reader. */
  ghost predicate GiveAll(ss: seq<TokState>, ts: seq<Tree>) {
    && |ss| == |ts| + 1
    && forall i, j :: 0 <= i < |ts| && j == i + 1 ==> Element(ss[i], ts[i], ss[j])
  }

  lemma GiveTail(ss: seq<TokState>, ts: seq<Tree>)
    requires GiveAll(ss, ts) && ts != []
    ensures GiveAll(ss[1..], ts[1..]) && Element(ss[0], ts[0], ss[1])
  {
    hide Element;
    forall i, j | 0 <= i < |ts[1..]| && j == i + 1
      ensures Element(ss[1..][i], ts[1..][i], ss[1..][j])
    {
      assert Element(ss[j], ts[j], ss[j + 1]);
    }
  }

  /** What is between the elements of a list and its closing parenthesis: nothing, or a dot and one tree. */
  ghost predicate Closes(s: TokState, end: Tree, t: TokState) {
    t.tok.TokRParen? &&
    if s.tok.TokDot? then
      Chomp(s).Some? &&
      var d := Chomp(s).value;
      !d.tok.TokEnd? && !d.tok.TokRParen? && !d.tok.TokDot? && Work(d) < Work(s) && Gives(d, end, t)
    else s == t && end == Nil
  }

  lemma {:induction false} RowReads(ss: seq<TokState>, ts: seq<Tree>, end: Tree, t: TokState) returns (tree: Tree)
    requires GiveAll(ss, ts) && Closes(ss[|ts|], end, t)
    ensures ParseList(ss[0]) == Parsed(PARSE_OK, tree, t) && IsRow(tree, ts, end)
    decreases |ts|
  {
    hide Chomp, ParseSexpr, Work;
    if ts == [] {
      tree := end;
    } else {
      GiveTail(ss, ts);
      var d := RowReads(ss[1..], ts[1..], end, t);
      tree := Cons(ts[0], d);
      RowCons(ts[0], d, ts[1..], end);
      assert [ts[0]] + ts[1..] == ts;
    }
  }

  /** A list is read as the row of its elements, in their order; what follows a dot takes the place of the last
      cdr. */
  lemma ListLaw(s: TokState, ss: seq<TokState>, ts: seq<Tree>, end: Tree, t: TokState) returns (tree: Tree)
    requires s.tok.TokLParen? && |ss| > 0 && Chomp(s) == Some(ss[0]) && Work(ss[0]) < Work(s)
    requires ts != [] && GiveAll(ss, ts) && Closes(ss[|ts|], end, t) && Chomp(t).Some?
    ensures Gives(s, tree, Chomp(t).value) && IsRow(tree, ts, end)
  {
    GiveTail(ss, ts);
    tree := RowReads(ss, ts, end, t);
    hide Chomp, Work, IsRow;
  }

  // ----- printing

  /** The texts of some trees, one after the other. */
  function Texts(ts: seq<Tree>): seq<int> {
    if ts == [] then [] else Pretty(ts[0]) + Texts(ts[1..])
  }

  /** Nil is "() ", a symbol its name and a space, a number its digits and a space, or a bare minus sign if it is
      negative. */
  lemma AtomText(name: seq<int>, v: nat, w: int)
    ensures Pretty(Nil) == Codes("() ")
    ensures Pretty(Symbol(name)) == name + Codes(" ")
    ensures Pretty(Value(v)) == Digits(v, 10) + Codes(" ")
    ensures w < 0 ==> Pretty(Value(w)) == Codes("- ")
  {
  }

  lemma {:induction false} RowText(t: Tree, ts: seq<Tree>, end: Tree)
    requires IsRow(t, ts, end) && !end.Cons? && ts != []
    ensures Shorthand(t) == Texts(ts) + if end == Nil then [] else Codes(". ") + Pretty(end)
    decreases |ts|
  {
    hide Pretty, Codes;
    RowParts(t, ts, end);
    DotText();
    if |ts| > 1 {
      RowText(t.cdr, ts[1..], end);
    } else {
      assert Rest(t.cdr, 0) == end;
      assert Texts(ts[1..]) == [];
    }
    var x := if end == Nil then [] else Codes(". ") + Pretty(end);
    assert Texts(ts) + x == Pretty(ts[0]) + (Texts(ts[1..]) + x);
  }

  lemma DotText()
    ensures Codes(". ") == [DOT, SPACE] && Codes("( ") == [LPAREN, SPACE] && Codes(") ") == [RPAREN, SPACE]
  {
  }

  /** A list is printed between "( " and ") ", its elements in their order, and what is in place of the last cdr behind
      ". ", unless that is nil. */
  lemma ListText(t: Tree, ts: seq<Tree>, end: Tree)
    requires IsRow(t, ts, end) && !end.Cons? && ts != []
    ensures Pretty(t)
         == Codes("( ") + Texts(ts) + (if end == Nil then [] else Codes(". ") + Pretty(end)) + Codes(") ")
  {
    RowParts(t, ts, end);
    DotText();
    TextsFirst(ts);
    RestText(t, ts, end);
    hide Codes, Texts, Shorthand, Pretty;
    var x := if end == Nil then [] else Codes(". ") + Pretty(end);
    Regroup([LPAREN, SPACE], Pretty(ts[0]), Texts(ts[1..]), x, [RPAREN, SPACE]);
  }

  lemma Regroup(a: seq<int>, b: seq<int>, c: seq<int>, d: seq<int>, e: seq<int>)
    ensures a + b + (c + d) + e == a + (b + c) + d + e
  {
  }

  /** A list behind its first element. */
  lemma RestText(t: Tree, ts: seq<Tree>, end: Tree)
    requires IsRow(t, ts, end) && !end.Cons? && ts != []
    ensures t.Cons? && Pretty(t) == [LPAREN, SPACE] + Pretty(ts[0])
      + (Texts(ts[1..]) + if end == Nil then [] else Codes(". ") + Pretty(end)) + [RPAREN, SPACE]
  {
    RowParts(t, ts, end);
    DotText();
    hide Codes;
    var x := if end == Nil then [] else Codes(". ") + Pretty(end);
    if |ts| > 1 {
      RowText(t.cdr, ts[1..], end);
      RowParts(t.cdr, ts[1..], end);
    } else {
      assert Rest(t.cdr, 0) == end && Texts(ts[1..]) == [] && [] + x == x;
    }
  }

  lemma TextsFirst(ts: seq<Tree>)
    requires ts != []
    ensures Texts(ts) == Pretty(ts[0]) + Texts(ts[1..])
  {
  }
}
