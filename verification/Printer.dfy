/** The pretty printer with list shorthand, writing to a growing output. */
module Printer {
  import opened Numbers
  import opened Token
  import opened Reader

  // ----- what is printed

  function Pretty(t: Tree): seq<int>
    decreases t, 0
  {
    match t
    case Nil => [LPAREN, RPAREN, SPACE]
    case Value(v) => SignedText(v) + [SPACE]
    case Symbol(name) => name + [SPACE]
    case Cons(a, d) =>
      [LPAREN, SPACE] + Pretty(a)
      + (if d.Cons? || d.Nil? then Shorthand(d) else [DOT, SPACE] + Pretty(d)) + [RPAREN, SPACE]
  }

  function Shorthand(t: Tree): seq<int>
    decreases t, 1
  {
    match t
    case Nil => []
    case Cons(a, d) => Pretty(a) + Shorthand(d)
    case _ => [DOT, SPACE] + Pretty(t)
  }

  lemma Assoc(a: seq<int>, b: seq<int>, c: seq<int>)
    ensures a + b + c == a + (b + c)
  {
  }

  /** Values are 64 bits wide, and no name has a terminator in it. */
  predicate Printable(t: Tree) {
    match t
    case Nil => true
    case Value(v) => -I64 <= v < I64
    case Symbol(name) => 0 !in name
    case Cons(a, d) => Printable(a) && Printable(d)
  }

  /** The terminator of a string in a buffer is the first one. */
  lemma EndOfString(buf: seq<int>, s: seq<int>, i: nat)
    requires HoldsString(buf, s) && i <= |s|
    ensures buf[i] == 0 <==> i == |s|
    ensures i < |s| ==> buf[i] == s[i]
  {
    assert i < |s| ==> buf[i] == buf[..|s|][i] && s[i] in s;
  }

  class OutStream {
    var out: seq<int>

    constructor ()
      ensures out == []
    {
      out := [];
    }

    /** stream_put of one string: up to its terminator. */
    method PutString(buf: array<int>, ghost s: seq<int>)
      requires HoldsString(buf[..], s)
      modifies this
      ensures out == old(out) + s
    {
      var i := 0;
      while buf[i] != 0
        invariant i <= |s| && out == old(out) + s[..i]
        invariant HoldsString(buf[..], s)
        decreases |s| - i
      {
        EndOfString(buf[..], s, i);
        out := out + [buf[i]];
        assert s[..i + 1] == s[..i] + [s[i]];
        i := i + 1;
      }
      EndOfString(buf[..], s, i);
      assert s[..i] == s;
    }

    method Put(s: seq<int>)
      modifies this
      ensures out == old(out) + s
    {
      out := out + s;
    }

    /** node_print_pretty_stream, not verbose. */
    method PrintPretty(t: Tree)
      requires Printable(t)
      modifies this
      ensures out == old(out) + Pretty(t)
      decreases t, 0
    {
      ghost var o := out;
      match t
      case Nil =>
        Put([LPAREN, RPAREN, SPACE]);
      case Cons(a, d) =>
        Put([LPAREN, SPACE]);
        PrintPretty(a);
        Assoc(o, [LPAREN, SPACE], Pretty(a));
        PrintRest(d);
        ghost var rest := if d.Cons? || d.Nil? then Shorthand(d) else [DOT, SPACE] + Pretty(d);
        Assoc(o, [LPAREN, SPACE] + Pretty(a), rest);
        Put([RPAREN, SPACE]);
        Assoc(o, [LPAREN, SPACE] + Pretty(a) + rest, [RPAREN, SPACE]);
      case Symbol(name) =>
        Put(name);
        Put([SPACE]);
        Assoc(o, name, [SPACE]);
      case Value(v) =>
        PrintValue(v);
    }

    method PrintValue(v: int)
      requires -I64 <= v < I64
      modifies this
      ensures out == old(out) + (SignedText(v) + [SPACE])
    {
      ghost var o := out;
      var buf := new int[21];
      FmtS64(buf, v);
      PutString(buf, SignedText(v));
      Put([SPACE]);
      Assoc(o, SignedText(v), [SPACE]);
    }

    /** What follows the head of a pair: the rest of the list, or a dot and the tail. */
    method PrintRest(d: Tree)
      requires Printable(d)
      modifies this
      ensures out == old(out) + if d.Cons? || d.Nil? then Shorthand(d) else [DOT, SPACE] + Pretty(d)
      decreases d, 2
    {
      if d.Cons? || d.Nil? {
        PrintShorthand(d);
      } else {
        ghost var o := out;
        Put([DOT, SPACE]);
        PrintPretty(d);
        Assoc(o, [DOT, SPACE], Pretty(d));
      }
    }

    /** node_print_list_shorthand_stream */
    method PrintShorthand(t: Tree)
      requires Printable(t)
      modifies this
      ensures out == old(out) + Shorthand(t)
      decreases t, 1
    {
      ghost var o := out;
      if t.Cons? {
        PrintPretty(t.car);
        PrintShorthand(t.cdr);
        Assoc(o, Pretty(t.car), Shorthand(t.cdr));
      } else if t.Nil? {
      } else {
        Put([DOT, SPACE]);
        PrintPretty(t);
        Assoc(o, [DOT, SPACE], Pretty(t));
      }
    }
  }
}
