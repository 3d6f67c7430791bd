/** Printing a tree and reading the text: exactly what comes back, for every tree with readable names. */
module RoundTrip {
  import opened Options
  import opened Numbers
  import opened Token
  import opened Reader
  import opened Printer

  // ----- the tokenizer at a position in a text

  /** A tokenizer in front of the text s that has just produced tok. */
  function Behind(s: seq<int>, tok: Tok): TokState {
    if s == [] then TokState([], EOF, false, tok) else TokState(s[1..], s[0], false, tok)
  }

  function Lex(s: seq<int>): Option<TokState> {
    Chomp(Behind(s, TokInit))
  }

  /** No character of the text reads as the end of input. */
  predicate Clean(s: seq<int>) {
    EOF !in s
  }

  lemma AdvanceBehind(c: int, s: seq<int>, tok: Tok)
    ensures Behind([c] + s, tok).nextch == c && Advance(Behind([c] + s, tok)) == Behind(s, tok)
  {
    assert ([c] + s)[1..] == s;
  }

  lemma {:induction false} SkipBlankTok(s: TokState, inComment: bool, tok: Tok)
    ensures SkipBlank(s, inComment).None? ==> SkipBlank(s.(tok := tok), inComment).None?
    ensures SkipBlank(s, inComment).Some? ==>
      SkipBlank(s.(tok := tok), inComment) == Some(SkipBlank(s, inComment).value.(tok := tok))
    decreases |s.rest|, if s.nextch == EOF then 0 else 1
  {
    var comment := if s.nextch == HASH then true else if s.nextch == NEWLINE then false else inComment;
    if (IsSpace(s.nextch) || comment) && !(s.rest == [] && s.nextch == EOF) {
      SkipBlankTok(Advance(s), comment, tok);
    }
  }

  lemma {:induction false} ReadAtomTok(s: TokState, buf: seq<int>, tok: Tok)
    ensures ReadAtom(s.(tok := tok), buf) == (ReadAtom(s, buf).0, ReadAtom(s, buf).1.(tok := tok))
    decreases |s.rest|, if s.nextch == EOF then 0 else 1
  {
    if |buf| < SYM_ROOM && IsAtomChar(s.nextch) && s.nextch != EOF {
      ReadAtomTok(Advance(s), buf + [s.nextch], tok);
    }
  }

  lemma {:induction false} DiscardAtomTok(s: TokState, tok: Tok)
    ensures DiscardAtom(s).None? ==> DiscardAtom(s.(tok := tok)).None?
    ensures DiscardAtom(s).Some? ==> DiscardAtom(s.(tok := tok)) == Some(DiscardAtom(s).value.(tok := tok))
    decreases |s.rest|, if s.nextch == EOF then 0 else 1
  {
    if IsAtomChar(s.nextch) && !(s.rest == [] && s.nextch == EOF) {
      DiscardAtomTok(Advance(s), tok);
    }
  }

  lemma AtomIgnoresTok(s: TokState, tok: Tok)
    ensures Atom(s.(tok := tok)) == Atom(s)
  {
    ReadAtomTok(s, [], tok);
    DiscardAtomTok(ReadAtom(s, []).1, tok);
  }

  /** The next token does not depend on the current one. */
  lemma LexIgnoresTok(s: seq<int>, tok: Tok)
    ensures Chomp(Behind(s, tok)) == Lex(s)
  {
    hide Atom, SkipBlank, StringChar;
    var q := Primed(Behind(s, TokInit));
    assert Primed(Behind(s, tok)) == q.(tok := tok);
    SkipBlankTok(q, false, tok);
    var b := SkipBlank(q, false);
    if b.Some? {
      AtomIgnoresTok(b.value, tok);
    }
  }

  /** The tokenizer never comes back exactly in front of an endless text. */
  lemma LexHangs(s: seq<int>, tok: Tok)
    requires Clean(s)
    ensures Chomp(Behind(s, tok)).None? <==> Endless(s)
  {
    var p := Primed(Behind(s, tok));
    assert Upcoming(p) == if s == [] then [EOF] else s;
    ChompHangs(Behind(s, tok));
  }

  /** A blank in front changes nothing. */
  lemma LexSpace(s: seq<int>, tok: Tok)
    requires Clean(s)
    ensures Chomp(Behind([SPACE] + s, tok)) == Lex(s)
  {
    AdvanceBehind(SPACE, s, tok);
    assert s != [] ==> s[0] in s;
    assert Chomp(Behind([SPACE] + s, tok)) == Chomp(Behind(s, tok));
    LexIgnoresTok(s, tok);
  }

  lemma LexMark(c: int, s: seq<int>, t: Tok)
    requires (c == LPAREN && t == TokLParen) || (c == RPAREN && t == TokRParen) || (c == DOT && t == TokDot)
    ensures Lex([c] + s) == Some(Behind(s, t))
  {
    AdvanceBehind(c, s, t);
    AdvanceBehind(c, s, TokInit);
  }

  // ----- atoms

  predicate AtomText(s: seq<int>) {
    forall i :: 0 <= i < |s| ==> IsAtomChar(s[i]) && s[i] != EOF && s[i] != 0
  }

  /** A name the tokenizer takes as one atom: short enough, and not starting a string or a comment. */
  predicate Readable(name: seq<int>) {
    0 < |name| < SYM_ROOM && AtomText(name) && name[0] != DQUOTE && name[0] != HASH
  }

  lemma {:induction false} ReadAtomText(name: seq<int>, s: seq<int>, buf: seq<int>, tok: Tok)
    requires AtomText(name) && |buf| + |name| < SYM_ROOM
    ensures ReadAtom(Behind(name + ([SPACE] + s), tok), buf) == (buf + name, Behind([SPACE] + s, tok))
    decreases |name|
  {
    if name == [] {
      assert name + ([SPACE] + s) == [SPACE] + s;
      assert buf + name == buf;
    } else {
      assert name + ([SPACE] + s) == [name[0]] + (name[1..] + ([SPACE] + s));
      AdvanceBehind(name[0], name[1..] + ([SPACE] + s), tok);
      ReadAtomText(name[1..], s, buf + [name[0]], tok);
      assert buf + [name[0]] + name[1..] == buf + name;
    }
  }

  lemma LexAtom(name: seq<int>, s: seq<int>)
    requires Readable(name)
    ensures Lex(name + ([SPACE] + s)) == Some(Behind([SPACE] + s, AtomTok(name)))
  {
    ReadAtomText(name, s, [], TokInit);
    assert [] + name == name;
    assert (name + ([SPACE] + s))[0] == name[0];
  }

  lemma DigitsReadable(s: seq<int>)
    requires s != [] && AllDigits(s, 10) && |s| < SYM_ROOM
    ensures Readable(s)
  {
  }

  lemma SignedTextReadable(v: int)
    requires -I64 <= v < I64
    ensures Readable(SignedText(v)) && AtomTok(SignedText(v)) == TokLit(if v >= 0 then v else 0)
  {
    SignedRoundTrip(v);
    if v >= 0 {
      DigitsDenote(v, 10);
      DigitsBound(v);
      DigitsReadable(Digits(v, 10));
    }
  }

  // ----- what a tree reads back as

  predicate Shaped(t: Tree) {
    match t
    case Nil => true
    case Value(v) => -I64 <= v < I64
    case Symbol(name) => Readable(name)
    case Cons(a, d) => Shaped(a) && Shaped(d)
  }

  /** A name that looks like a number reads as one, and a negative value prints as a bare sign. */
  function Readback(t: Tree): Tree {
    match t
    case Nil => Nil
    case Value(v) => Value(if v >= 0 then v else 0)
    case Symbol(name) =>
      var n := Strtoll(name);
      if n.end == |name| then Value(n.value) else t
    case Cons(a, d) => Cons(Readback(a), Readback(d))
  }

  const PLUS_NAME := ['+' as int]
  const HEX_NAME := ['0' as int, 'x' as int]

  /** The trees that survive: no negative values, no names that look like numbers. */
  predicate Survives(t: Tree) {
    match t
    case Nil => true
    case Value(v) => v >= 0
    case Symbol(name) => Strtoll(name).end < |name|
    case Cons(a, d) => Survives(a) && Survives(d)
  }

  lemma ReadbackIsIdentity(t: Tree)
    ensures Readback(t) == t <==> Survives(t)
  {
  }

  lemma {:induction false} CStringWhole(s: seq<int>)
    requires 0 !in s
    ensures CString(s) == s
  {
    if s != [] {
      CStringWhole(s[1..]);
    }
  }

  lemma {:induction false} ShapedPrintable(t: Tree)
    requires Shaped(t)
    ensures Printable(t)
  {
    match t
    case Cons(a, d) =>
      ShapedPrintable(a);
      ShapedPrintable(d);
    case _ =>
  }

  // ----- texts

  const CLOSE := [RPAREN, SPACE]

  function ListText(a: Tree, d: Tree, suffix: seq<int>): seq<int> {
    Pretty(a) + (Shorthand(d) + (CLOSE + suffix))
  }

  lemma PrettyCons(a: Tree, d: Tree, suffix: seq<int>)
    ensures Pretty(Cons(a, d)) + suffix == [LPAREN] + ([SPACE] + ListText(a, d, suffix))
  {
    var open := [LPAREN, SPACE];
    assert (if d.Cons? || d.Nil? then Shorthand(d) else [DOT, SPACE] + Pretty(d)) == Shorthand(d);
    Assoc(open + Pretty(a) + Shorthand(d), CLOSE, suffix);
    Assoc(open + Pretty(a), Shorthand(d), CLOSE + suffix);
    Assoc(open, Pretty(a), Shorthand(d) + (CLOSE + suffix));
    assert open == [LPAREN] + [SPACE];
    Assoc([LPAREN], [SPACE], ListText(a, d, suffix));
  }

  /** A bound for the recursion over trees and their tails. */
  function Size(t: Tree): nat {
    if t.Cons? then Size(t.car) + Size(t.cdr) + 1 else 1
  }

  lemma {:induction false} PrettyClean(t: Tree)
    requires Shaped(t)
    ensures Clean(Pretty(t)) && Clean(Shorthand(t))
  {
    match t
    case Nil =>
    case Value(v) =>
      SignedTextReadable(v);
      assert forall c :: c in SignedText(v) ==> c != EOF;
    case Symbol(name) =>
    case Cons(a, d) =>
      PrettyClean(a);
      PrettyClean(d);
  }

  /** The first token of a printed tree opens it, and all of the rest is still to come. */
  predicate Opens(s: Option<TokState>, y: seq<int>) {
    && s.Some? && Left(s.value) > |y|
    && (s.value.tok.TokLParen? || s.value.tok.TokLit? || s.value.tok.TokSym?)
  }

  lemma LeftBehind(s: seq<int>, tok: Tok)
    requires Clean(s)
    ensures Left(Behind(s, tok)) == |s|
  {
    assert s != [] ==> s[0] in s;
  }

  lemma FirstToken(t: Tree, y: seq<int>)
    requires Shaped(t) && Clean(y)
    ensures Opens(Lex(Pretty(t) + y), y)
  {
    hide Lex;
    match t
    case Nil =>
      assert Pretty(t) + y == [LPAREN] + ([RPAREN, SPACE] + y);
      LexMark(LPAREN, [RPAREN, SPACE] + y, TokLParen);
      LeftBehind([RPAREN, SPACE] + y, TokLParen);
    case Value(v) =>
      SignedTextReadable(v);
      assert Pretty(t) + y == SignedText(v) + ([SPACE] + y);
      LexAtom(SignedText(v), y);
      LeftBehind([SPACE] + y, AtomTok(SignedText(v)));
    case Symbol(name) =>
      assert Pretty(t) + y == name + ([SPACE] + y);
      LexAtom(name, y);
      LeftBehind([SPACE] + y, AtomTok(name));
    case Cons(a, d) =>
      PrettyCons(a, d, y);
      LexMark(LPAREN, [SPACE] + ListText(a, d, y), TokLParen);
      PrettyClean(a);
      PrettyClean(d);
      LeftBehind([SPACE] + ListText(a, d, y), TokLParen);
  }

  lemma LexLeft(s: seq<int>)
    requires Clean(s)
    ensures Lex(s).Some? ==> Left(Lex(s).value) <= |s|
  {
    LeftBehind(s, TokInit);
    ChompLeft(Behind(s, TokInit));
  }

  // ----- the round trip

  lemma AtomReads(name: seq<int>, t: Tree, suffix: seq<int>)
    requires Readable(name) && Clean(suffix) && Lex(suffix).Some?
    requires t == if AtomTok(name).TokSym? then Symbol(name) else Value(AtomTok(name).lit)
    ensures Lex(name + ([SPACE] + suffix)).Some?
    ensures ParseSexpr(Lex(name + ([SPACE] + suffix)).value) == Parsed(PARSE_OK, t, Lex(suffix).value)
  {
    LexAtom(name, suffix);
    LexSpace(suffix, AtomTok(name));
    CStringWhole(name);
  }

  lemma NilReads(suffix: seq<int>)
    requires Clean(suffix) && Lex(suffix).Some?
    ensures Lex(Pretty(Nil) + suffix).Some?
    ensures ParseSexpr(Lex(Pretty(Nil) + suffix).value) == Parsed(PARSE_OK, Nil, Lex(suffix).value)
  {
    var rest := [RPAREN] + ([SPACE] + suffix);
    assert Pretty(Nil) + suffix == [LPAREN] + rest;
    LexMark(LPAREN, rest, TokLParen);
    LexMark(RPAREN, [SPACE] + suffix, TokRParen);
    LexIgnoresTok(rest, TokLParen);
    LexSpace(suffix, TokRParen);
  }

  /** Whatever text follows, a printed tree reads back as Readback says, and the reader has just moved on
      to the first token behind it. */
  lemma {:induction false} PrettyReads(t: Tree, suffix: seq<int>)
    requires Shaped(t) && Clean(suffix) && Lex(suffix).Some?
    ensures Lex(Pretty(t) + suffix).Some?
    ensures ParseSexpr(Lex(Pretty(t) + suffix).value) == Parsed(PARSE_OK, Readback(t), Lex(suffix).value)
    decreases Size(t), 0
  {
    match t
    case Nil =>
      NilReads(suffix);
    case Value(v) =>
      SignedTextReadable(v);
      Assoc(SignedText(v), [SPACE], suffix);
      AtomReads(SignedText(v), Readback(t), suffix);
    case Symbol(name) =>
      Assoc(name, [SPACE], suffix);
      AtomReads(name, Readback(t), suffix);
    case Cons(a, d) =>
      PrettyCons(a, d, suffix);
      ConsReads(a, d, suffix);
  }

  lemma {:induction false} ConsReads(a: Tree, d: Tree, suffix: seq<int>)
    requires Shaped(a) && Shaped(d) && Clean(suffix) && Lex(suffix).Some?
    ensures var text := [LPAREN] + ([SPACE] + ListText(a, d, suffix));
      Lex(text).Some? &&
      ParseSexpr(Lex(text).value) == Parsed(PARSE_OK, Cons(Readback(a), Readback(d)), Lex(suffix).value)
    decreases Size(a) + Size(d), 4
  {
    hide ParseList, Chomp, Shaped, Pretty, Shorthand;
    var x := ListText(a, d, suffix);
    PrettyClean(a);
    PrettyClean(d);
    LexMark(LPAREN, [SPACE] + x, TokLParen);
    LeftBehind([SPACE] + x, TokLParen);
    LexSpace(x, TokLParen);
    FirstToken(a, Shorthand(d) + (CLOSE + suffix));
    LexLeft(x);
    ListReads(a, d, suffix);
    CloseReads(suffix);
  }

  /** A closing parenthesis is the current token when all of the list has been read. */
  lemma CloseReads(suffix: seq<int>)
    requires Clean(suffix)
    ensures Lex(CLOSE + suffix) == Some(Behind([SPACE] + suffix, TokRParen))
    ensures Chomp(Behind([SPACE] + suffix, TokRParen)) == Lex(suffix)
  {
    assert CLOSE + suffix == [RPAREN] + ([SPACE] + suffix);
    LexMark(RPAREN, [SPACE] + suffix, TokRParen);
    LexSpace(suffix, TokRParen);
  }

  lemma {:induction false} ListReads(a: Tree, d: Tree, suffix: seq<int>)
    requires Shaped(a) && Shaped(d) && Clean(suffix)
    ensures Lex(ListText(a, d, suffix)).Some? && Lex(CLOSE + suffix).Some?
    ensures ParseList(Lex(ListText(a, d, suffix)).value)
         == Parsed(PARSE_OK, Cons(Readback(a), Readback(d)), Lex(CLOSE + suffix).value)
    decreases Size(a) + Size(d), 3
  {
    hide Lex, Chomp, ParseSexpr, Pretty, Shorthand;
    var y := Shorthand(d) + (CLOSE + suffix);
    PrettyClean(d);
    CloseReads(suffix);
    TailReads(d, suffix);
    PrettyReads(a, y);
    FirstToken(a, y);
    LexLeft(y);
  }

  lemma {:induction false} TailReads(d: Tree, suffix: seq<int>)
    requires Shaped(d) && Clean(suffix)
    ensures Lex(Shorthand(d) + (CLOSE + suffix)).Some? && Lex(CLOSE + suffix).Some?
    ensures ParseList(Lex(Shorthand(d) + (CLOSE + suffix)).value)
         == Parsed(PARSE_OK, Readback(d), Lex(CLOSE + suffix).value)
    decreases Size(d), 2
  {
    CloseReads(suffix);
    match d
    case Nil =>
      assert Shorthand(d) + (CLOSE + suffix) == CLOSE + suffix;
    case Cons(a, e) =>
      Assoc(Pretty(a), Shorthand(e), CLOSE + suffix);
      ListReads(a, e, suffix);
    case _ =>
      DottedReads(d, suffix);
  }

  lemma {:induction false} DottedReads(d: Tree, suffix: seq<int>)
    requires Shaped(d) && Clean(suffix) && (d.Value? || d.Symbol?)
    ensures Lex(Shorthand(d) + (CLOSE + suffix)).Some? && Lex(CLOSE + suffix).Some?
    ensures ParseList(Lex(Shorthand(d) + (CLOSE + suffix)).value)
         == Parsed(PARSE_OK, Readback(d), Lex(CLOSE + suffix).value)
    decreases Size(d), 1
  {
    CloseReads(suffix);
    var w := Pretty(d) + (CLOSE + suffix);
    assert [DOT, SPACE] == [DOT] + [SPACE];
    Assoc([DOT, SPACE], Pretty(d), CLOSE + suffix);
    Assoc([DOT], [SPACE], w);
    PrettyClean(d);
    LexMark(DOT, [SPACE] + w, TokDot);
    LeftBehind([SPACE] + w, TokDot);
    LexSpace(w, TokDot);
    FirstToken(d, CLOSE + suffix);
    LexLeft(w);
    PrettyReads(d, CLOSE + suffix);
  }

  // ----- the guarantee

  /** Printing a tree and reading the text gives the tree back if and only if it has no negative value and
      no symbol whose name looks like a number; whatever text follows is not touched. */
  lemma PrintThenRead(t: Tree, suffix: seq<int>)
    requires Shaped(t) && Clean(suffix) && Lex(suffix).Some?
    ensures ParsesTo(Pretty(t) + suffix, t, suffix) <==> Survives(t)
  {
    PrettyReads(t, suffix);
    ReadbackIsIdentity(t);
  }

  /** The trees +, 0x and -1 are printed as texts that read as something else. */
  lemma LostExamples(suffix: seq<int>)
    requires Clean(suffix) && Lex(suffix).Some?
    ensures ParsesTo(Pretty(Symbol(PLUS_NAME)) + suffix, Value(0), suffix)
    ensures ParsesTo(Pretty(Symbol(HEX_NAME)) + suffix, Value(0), suffix)
    ensures ParsesTo(Pretty(Value(-1)) + suffix, Value(0), suffix)
  {
    PrettyReads(Symbol(PLUS_NAME), suffix);
    PrettyReads(Symbol(HEX_NAME), suffix);
    PrettyReads(Value(-1), suffix);
  }

  ghost predicate ParsesTo(text: seq<int>, t: Tree, suffix: seq<int>) {
    && Lex(text).Some? && Lex(suffix).Some?
    && ParseSexpr(Lex(text).value) == Parsed(PARSE_OK, t, Lex(suffix).value)
  }

  /** Reading expression after expression up to the end of the input, as the parser's callers do. */
  function ReadAll(s: TokState): Option<seq<Tree>>
    decreases Work(s)
  {
    var p := ParseSexpr(s);
    if !p.Parsed? then None
    else if p.status == PARSE_END then Some([])
    else if p.status != PARSE_OK || Work(p.state) >= Work(s) then None
    else
      var more := ReadAll(p.state);
      if more.None? then None else Some([p.tree] + more.value)
  }

  /** The first call of parse on a new tokenizer primes it. */
  function ReadInput(input: seq<int>): Option<seq<Tree>> {
    var p := Chomp(TokState(input, EOF, false, TokInit));
    if p.None? then None else ReadAll(p.value)
  }

  lemma PrimedIsLex(input: seq<int>)
    requires Clean(input)
    ensures Chomp(TokState(input, EOF, false, TokInit)) == Lex(input)
  {
    assert input != [] ==> input[0] in input;
  }

  function PrettyAll(ts: seq<Tree>): seq<int> {
    if ts == [] then [] else Pretty(ts[0]) + PrettyAll(ts[1..])
  }

  function ReadbackAll(ts: seq<Tree>): seq<Tree> {
    if ts == [] then [] else [Readback(ts[0])] + ReadbackAll(ts[1..])
  }

  predicate AllShaped(ts: seq<Tree>) {
    forall i :: 0 <= i < |ts| ==> Shaped(ts[i])
  }

  lemma {:induction false} PrettyAllClean(ts: seq<Tree>)
    requires AllShaped(ts)
    ensures Clean(PrettyAll(ts))
  {
    if ts != [] {
      PrettyClean(ts[0]);
      PrettyAllClean(ts[1..]);
    }
  }

  lemma {:induction false} PrettyAllReads(ts: seq<Tree>)
    requires AllShaped(ts)
    ensures Lex(PrettyAll(ts)).Some?
    ensures ReadAll(Lex(PrettyAll(ts)).value) == Some(ReadbackAll(ts))
  {
    if ts != [] {
      var y := PrettyAll(ts[1..]);
      PrettyAllReads(ts[1..]);
      PrettyAllClean(ts[1..]);
      PrettyReads(ts[0], y);
      FirstToken(ts[0], y);
      LexLeft(y);
    }
  }

  lemma {:induction false} ReadbackAllIsIdentity(ts: seq<Tree>)
    ensures ReadbackAll(ts) == ts <==> forall i :: 0 <= i < |ts| ==> Survives(ts[i])
  {
    if ts != [] {
      ReadbackIsIdentity(ts[0]);
      ReadbackAllIsIdentity(ts[1..]);
      assert ts == [ts[0]] + ts[1..];
      assert forall i :: 1 <= i < |ts| ==> ts[i] == ts[1..][i - 1];
      if forall i :: 0 <= i < |ts[1..]| ==> Survives(ts[1..][i]) {
      } else {
        var i :| 0 <= i < |ts[1..]| && !Survives(ts[1..][i]);
        assert !Survives(ts[i + 1]);
      }
    }
  }

  /** Printed one after the other, the trees are read back one after the other, up to the end, and they
      are the same if and only if all of them survive. */
  lemma PrintAllThenReadAll(ts: seq<Tree>)
    requires AllShaped(ts)
    ensures ReadInput(PrettyAll(ts)) == Some(ReadbackAll(ts))
    ensures ReadInput(PrettyAll(ts)) == Some(ts) <==> forall i :: 0 <= i < |ts| ==> Survives(ts[i])
  {
    PrettyAllReads(ts);
    PrettyAllClean(ts);
    PrimedIsLex(PrettyAll(ts));
    ReadbackAllIsIdentity(ts);
  }

  /** Printer, tokenizer and reader themselves, one after the other. */
  method Echo(t: Tree) returns (u: Tree)
    requires Shaped(t)
    ensures u == Readback(t)
    ensures u == t <==> Survives(t)
  {
    ShapedPrintable(t);
    var s := new OutStream();
    s.PrintPretty(t);
    assert s.out == Pretty(t) + [];
    PrettyClean(t);
    PrimedIsLex(Pretty(t));
    assert Lex([]).Some?;
    PrettyReads(t, []);
    ReadbackIsIdentity(t);
    var ts := new Tokenizer(s.out);
    var end, status;
    end, status, u := Read(ts);
  }
}
