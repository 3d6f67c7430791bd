/** The reader as an automaton: which tokens it asks for, which texts it never finishes, and how it ends on the
    others. */
module Pushdown {
  import opened Options
  import opened Token
  import opened Reader
  import opened Divergence

  /** Where the reader is in front of a token. A list that is still open is dotted once its dot has been read;
      outer are the lists around the innermost one. */
  datatype Point =
    | Begin
    | Head(outer: seq<bool>)
    | Inside(dotted: bool, outer: seq<bool>)
    | Tail(outer: seq<bool>)
    | Over

  /** Behind an expression. */
  function Behind(open: seq<bool>): Point {
    if open == [] then Over else Inside(open[0], open[1..])
  }

  /** In front of an expression. */
  function Item(open: seq<bool>, tok: Tok): Option<Point> {
    if tok.TokSym? || tok.TokLit? then Some(Behind(open))
    else if tok.TokLParen? then Some(Head(open))
    else None
  }

  /** Where it gets by asking for another token, or none when it is finished. */
  function Asks(p: Point, tok: Tok): Option<Point> {
    match p
    case Begin => Item([], tok)
    case Head(outer) => if tok.TokRParen? then Some(Behind(outer)) else Item([false] + outer, tok)
    case Inside(dotted, outer) =>
      if tok.TokRParen? then Some(Behind(outer))
      else if dotted then None
      else if tok.TokDot? then Some(Tail(outer))
      else Item([false] + outer, tok)
    case Tail(outer) => Item([true] + outer, tok)
    case Over => None
  }

  /** Where it is n tokens on, if it asks for that many and gets them. */
  function Reads(p: Point, s: TokState, n: nat): Option<(Point, TokState)>
    decreases n
  {
    if n == 0 then Some((p, s))
    else if Asks(p, s.tok).None? || Chomp(s).None? then None
    else Reads(Asks(p, s.tok).value, Chomp(s).value, n - 1)
  }

  /** An element of a list may come next. */
  predicate InList(p: Point) {
    p.Head? || (p.Inside? && !p.dotted)
  }

  /** It asks for a token that never comes, or for an element of a list in front of a quote. */
  predicate Trapped(p: Point, s: TokState) {
    && Asks(p, s.tok).Some?
    && (Hangs(s) || (AtQuote(s) && InList(Asks(p, s.tok).value)))
  }

  // ----- the reader's recursion follows the automaton

  /** The last list whose dot has come is not closed, and there are at most so many lists around it. */
  predicate Unclosed(q: Point, depth: nat) {
    q.Inside? && q.dotted && |q.outer| <= depth
  }

  /** What the automaton shows where it is finished or trapped: the common part of both cases below. */
  predicate Ends(q: Point, t: TokState, r: Parsed, depth: nat) {
    match r
    case Diverges => Trapped(q, t)
    case Faults => Asks(q, t.tok).None? && q != Over && !Unclosed(q, depth) && (q == Begin ==> !t.tok.TokEnd?)
    case Parsed(status, tree, state) => t == state && (status != PARSE_OK ==> Asks(q, t.tok).None? && tree == Nil)
  }

  /** The automaton gets where the expression ends. */
  ghost predicate Follows(p: Point, s: TokState, n: nat, r: Parsed, open: seq<bool>) {
    && Reads(p, s, n).Some?
    && var (q, t) := Reads(p, s, n).value;
       && Ends(q, t, r, |open|)
       && (r.Parsed? && r.status == PARSE_OK ==> q == Behind(open))
       && (r.Parsed? && r.status != PARSE_OK ==>
           || (q == Inside(true, open) && r.status == if t.tok.TokEnd? then PARSE_TOKEN_UNDERFLOW
                                                      else PARSE_EXPECTED_RPAREN)
           || (open == [] && q == p && t == s && t.tok.TokEnd? && r.status == PARSE_END))
  }

  /** And where a list is to be closed; only behind a dot can its parenthesis come with an error. */
  ghost predicate FollowsList(p: Point, s: TokState, n: nat, r: Parsed, outer: seq<bool>, dot: bool) {
    && Reads(p, s, n).Some?
    && var (q, t) := Reads(p, s, n).value;
       && Ends(q, t, r, |outer|) && q != Over
       && (r.Parsed? && r.status == PARSE_OK ==>
           if t.tok.TokRParen? then Asks(q, t.tok) == Some(Behind(outer)) else q == Inside(true, outer))
       && (r.Parsed? && r.status != PARSE_OK ==>
           q != Begin && !Unclosed(q, |outer|) && (t.tok.TokRParen? ==> dot))
  }

  lemma {:induction false} ReadsOn(p: Point, s: TokState, a: nat, b: nat)
    requires Reads(p, s, a).Some?
    ensures Reads(p, s, a + b) == Reads(Reads(p, s, a).value.0, Reads(p, s, a).value.1, b)
    decreases a
  {
    hide Chomp, Asks;
    if a > 0 {
      ReadsOn(Asks(p, s.tok).value, Chomp(s).value, a - 1, b);
    }
  }

  lemma ReadsOne(p: Point, s: TokState)
    requires Asks(p, s.tok).Some? && Chomp(s).Some?
    ensures Reads(p, s, 1) == Some((Asks(p, s.tok).value, Chomp(s).value))
  {
    assert Reads(Asks(p, s.tok).value, Chomp(s).value, 0) == Some((Asks(p, s.tok).value, Chomp(s).value));
  }

  lemma NoToken(p: Point, s: TokState)
    requires Asks(p, s.tok).Some? && Chomp(s).None?
    ensures Trapped(p, s)
  {
    ChompHangs(s);
  }

  predicate EndsHead(tok: Tok) {
    tok.TokEnd? || tok.TokRParen? || tok.TokDot?
  }

  lemma {:induction false} SexprFollows(p: Point, s: TokState, open: seq<bool>) returns (n: nat)
    requires p != Over && Asks(p, s.tok) == Item(open, s.tok) && !Unclosed(p, |open|)
    requires open != [] ==> p != Begin && !s.tok.TokEnd?
    ensures Follows(p, s, n, ParseSexpr(s), open)
    decreases Work(s), 0
  {
    hide Chomp, Left, Hangs, AtQuote;
    n := 0;
    assert Reads(p, s, 0) == Some((p, s));
    if Item(open, s.tok).Some? {
      if Chomp(s).None? {
        NoToken(p, s);
      } else {
        ReadsOne(p, s);
        if s.tok.TokLParen? && !EndsHead(Chomp(s).value.tok) && Work(Chomp(s).value) >= Work(s) {
          NoProgress(s);
        } else {
          n := 1;
          if s.tok.TokLParen? {
            var k := HeadFollows(s, open);
            ReadsOn(p, s, 1, k);
            n := 1 + k;
          }
        }
      }
    }
  }

  /** Behind an opening parenthesis. */
  lemma {:induction false} HeadFollows(s: TokState, outer: seq<bool>) returns (n: nat)
    requires s.tok.TokLParen? && Chomp(s).Some?
    requires EndsHead(Chomp(s).value.tok) || Work(Chomp(s).value) < Work(s)
    ensures Follows(Head(outer), Chomp(s).value, n, ParseSexpr(s), outer)
    decreases Work(s), -1
  {
    hide Chomp, Left, Hangs, AtQuote;
    var t := Chomp(s).value;
    n := 0;
    assert Reads(Head(outer), t, 0) == Some((Head(outer), t));
    if t.tok.TokRParen? {
      if Chomp(t).None? {
        NoToken(Head(outer), t);
      } else {
        ReadsOne(Head(outer), t);
        n := 1;
      }
    } else if !EndsHead(t.tok) {
      var k := ListFollows(Head(outer), t, outer);
      n := CloseFollows(Head(outer), t, k, ParseList(t), outer);
    }
  }

  lemma CloseFollows(p: Point, s: TokState, k: nat, r: Parsed, outer: seq<bool>) returns (n: nat)
    requires FollowsList(p, s, k, r, outer, false) && p == Head(outer) && !EndsHead(s.tok)
    requires r.Parsed? && r.status == PARSE_OK ==> r.tree.Cons?
    ensures Follows(p, s, n, CloseList(r), outer)
  {
    hide Chomp, Hangs, AtQuote;
    n := k;
    var (q, t) := Reads(p, s, k).value;
    if r.Parsed? && t.tok.TokRParen? {
      if Chomp(t).None? {
        NoToken(q, t);
      } else {
        ReadsOne(q, t);
        ReadsOn(p, s, k, 1);
        n := k + 1;
      }
    }
  }

  /** The rest of a list, which ends in front of what closes it. */
  lemma {:induction false} ListFollows(p: Point, s: TokState, outer: seq<bool>) returns (n: nat)
    requires p != Over && p != Begin && !(p.Inside? && p.dotted)
    requires Asks(p, s.tok) == Asks(Inside(false, outer), s.tok)
    ensures FollowsList(p, s, n, ParseList(s), outer, s.tok.TokDot?)
    decreases Work(s), 1
  {
    hide Chomp, Left, Hangs, AtQuote;
    n := 0;
    assert Reads(p, s, 0) == Some((p, s));
    if s.tok.TokEnd? || s.tok.TokRParen? {
    } else if s.tok.TokDot? {
      if Chomp(s).None? {
        NoToken(p, s);
      } else {
        ReadsOne(p, s);
        var k := TailFollows(s, outer);
        ReadsOn(p, s, 1, k);
        n := 1 + k;
      }
    } else {
      var child := ParseSexpr(s);
      n := SexprFollows(p, s, [false] + outer);
      if child.Parsed? && child.status == PARSE_OK {
        if Work(child.state) >= Work(s) {
          ChildNoProgress(s);
          n := 0;
        } else {
          var (q, t) := Reads(p, s, n).value;
          var k := ListFollows(q, t, outer);
          ReadsOn(p, s, n, k);
          n := n + k;
        }
      }
    }
  }

  /** Behind a dot. */
  lemma {:induction false} TailFollows(s: TokState, outer: seq<bool>) returns (n: nat)
    requires s.tok.TokDot? && Chomp(s).Some?
    ensures FollowsList(Tail(outer), Chomp(s).value, n, ParseList(s), outer, true)
    decreases Work(s), 0
  {
    hide Chomp, Left, Hangs, AtQuote;
    var t := Chomp(s).value;
    n := 0;
    assert Reads(Tail(outer), t, 0) == Some((Tail(outer), t));
    assert ([true] + outer)[1..] == outer;
    if !EndsHead(t.tok) {
      if Work(t) >= Work(s) {
        NoProgress(s);
        ReadsOne(Tail(outer), t);
        n := 1;
      } else {
        n := SexprFollows(Tail(outer), t, [true] + outer);
      }
    }
  }

  // ----- a trap has no way out

  lemma {:induction false} QuoteTraps(p: Point, s: TokState, n: nat)
    requires InList(p) && s.tok == TokLit(0) && Chomp(s) == Some(s)
    ensures Reads(p, s, n).Some? && Asks(Reads(p, s, n).value.0, Reads(p, s, n).value.1.tok).Some?
    decreases n
  {
    if n > 0 {
      QuoteTraps(Asks(p, s.tok).value, s, n - 1);
    }
  }

  lemma {:induction false} TrapHolds(p: Point, s: TokState, n: nat, k: nat)
    requires Reads(p, s, n).Some? && Trapped(Reads(p, s, n).value.0, Reads(p, s, n).value.1)
    requires Reads(p, s, k).Some?
    ensures Asks(Reads(p, s, k).value.0, Reads(p, s, k).value.1.tok).Some?
    decreases n
  {
    hide Chomp, Hangs, AtQuote;
    if n > 0 && k > 0 {
      TrapHolds(Asks(p, s.tok).value, Chomp(s).value, n - 1, k - 1);
    } else if k > 0 {
      ChompHangs(s);
      StuckForEver(s);
      QuoteTraps(Asks(p, s.tok).value, Chomp(s).value, k - 1);
    }
  }

  lemma {:induction false} FinishedOnce(p: Point, s: TokState, n: nat, k: nat)
    requires n < k && Reads(p, s, k).Some?
    ensures Reads(p, s, n).Some? && Asks(Reads(p, s, n).value.0, Reads(p, s, n).value.1.tok).Some?
    decreases n
  {
    hide Chomp;
    if n > 0 {
      FinishedOnce(Asks(p, s.tok).value, Chomp(s).value, n - 1, k - 1);
    }
  }

  // ----- when the reader does not come back

  ghost predicate GetsTrapped(s: TokState) {
    exists n: nat :: Reads(Begin, s, n).Some? && Trapped(Reads(Begin, s, n).value.0, Reads(Begin, s, n).value.1)
  }

  /** The reader never comes back if and only if the tokens before some place leave an expression open, and there
      the tokenizer hangs, or a quote is next in a list that has no dot yet. */
  lemma DivergesOnTrap(s: TokState)
    ensures ParseSexpr(s).Diverges? <==> GetsTrapped(s)
  {
    hide Trapped;
    var k := SexprFollows(Begin, s, []);
    if n: nat :| Reads(Begin, s, n).Some? && Trapped(Reads(Begin, s, n).value.0, Reads(Begin, s, n).value.1) {
      TrapHolds(Begin, s, n, k);
    }
  }

  /** The same from the start of the input, whose first token parse reads. */
  lemma ParseDiverges(s: TokState)
    requires s.tok.TokInit?
    ensures Parse(s).Diverges? <==> Hangs(s) || (Chomp(s).Some? && GetsTrapped(Chomp(s).value))
  {
    ChompHangs(s);
    if Chomp(s).Some? {
      DivergesOnTrap(Chomp(s).value);
    }
  }

  /** Otherwise it is where the automaton is finished. It comes back without an error just if that is behind the
      expression, and with one at the end of the input, and when the outermost list has had its dot and an
      expression and is not closed then, by the end of the input or by another token. All other errors end in a
      fault. */
  lemma EndsWhereFinished(s: TokState, n: nat)
    requires Reads(Begin, s, n).Some? && Asks(Reads(Begin, s, n).value.0, Reads(Begin, s, n).value.1.tok).None?
    ensures var (q, t) := Reads(Begin, s, n).value;
      var r := ParseSexpr(s);
      && !r.Diverges? && (r.Parsed? ==> r.state == t)
      && (r.Parsed? && r.status == PARSE_OK <==> q == Over)
      && (r.Parsed? && r.status == PARSE_END <==> q == Begin && t.tok.TokEnd?)
      && (r.Parsed? && r.status == PARSE_TOKEN_UNDERFLOW <==> q == Inside(true, []) && t.tok.TokEnd?)
      && (r.Parsed? && r.status == PARSE_EXPECTED_RPAREN <==> q == Inside(true, []) && !t.tok.TokEnd?)
      && (r.Faults? <==> q !in {Over, Inside(true, [])} && !(q == Begin && t.tok.TokEnd?))
  {
    hide Trapped, Chomp;
    var k := SexprFollows(Begin, s, []);
    if ParseSexpr(s).Diverges? {
      TrapHolds(Begin, s, k, n);
    } else if n < k {
      FinishedOnce(Begin, s, n, k);
    } else if k < n {
      FinishedOnce(Begin, s, k, n);
    }
  }

  /** For instance a closing parenthesis where an expression should start. */
  lemma FaultExample(rest: seq<int>)
    ensures Parse(TokState([RPAREN] + rest, EOF, false, TokInit)).Faults?
  {
    var s := TokState([RPAREN] + rest, EOF, false, TokInit);
    var p := TokState(rest, RPAREN, false, TokInit);
    assert s.rest[1..] == rest && Primed(s) == p && SkipBlank(p, false) == Some(p);
  }

  // ----- texts that are always read

  lemma {:induction false} ReadsNth(p: Point, s: TokState, n: nat)
    requires Reads(p, s, n).Some?
    ensures Nth(s, n) == Some(Reads(p, s, n).value.1)
    decreases n
  {
    if n > 0 {
      ReadsNth(Asks(p, s.tok).value, Chomp(s).value, n - 1);
    }
  }

  /** Input without quotes that ends in a newline is read to its end, however malformed it is: no call of parse
      diverges, and what it leaves when it comes back is such input again. */
  lemma BenignReads(s: TokState)
    requires Benign(s)
    ensures !Parse(s).Diverges? && (Parse(s).Parsed? ==> Benign(Parse(s).state))
  {
    hide Benign, Hangs, AtQuote;
    ChompBenign(s);
    var p := if s.tok.TokInit? then Chomp(s).value else s;
    var k := SexprFollows(Begin, p, []);
    ReadsNth(Begin, p, k);
    NthBenign(p, k);
    ChompBenign(Reads(Begin, p, k).value.1);
  }

  lemma NewlineReads(text: seq<int>)
    requires QUOTE !in text && (text == [] || text[|text| - 1] == NEWLINE)
    ensures var s := TokState(text, EOF, false, TokInit);
      !Parse(s).Diverges? && (Parse(s).Parsed? ==> Benign(Parse(s).state))
  {
    var s := TokState(text, EOF, false, TokInit);
    assert Upcoming(s)[|s.rest|] == if text == [] then EOF else text[|text| - 1];
    BenignReads(s);
  }

  // ----- texts that never are

  /** An endless text at the start. */
  lemma EndlessDiverges(text: seq<int>)
    requires text != [] && Endless(text)
    ensures Parse(TokState(text, EOF, false, TokInit)).Diverges?
  {
    var s := TokState(text, EOF, false, TokInit);
    assert Upcoming(Primed(s)) == text;
    ChompHangs(s);
  }

  /** A quote right behind an opening parenthesis, whatever follows. */
  lemma QuoteDiverges(rest: seq<int>)
    ensures Parse(TokState([LPAREN, QUOTE] + rest, EOF, false, TokInit)).Diverges?
  {
    var s := TokState([LPAREN, QUOTE] + rest, EOF, false, TokInit);
    var p := TokState([QUOTE] + rest, LPAREN, false, TokInit);
    assert s.rest[1..] == [QUOTE] + rest && Primed(s) == p;
    var t := TokState(rest, QUOTE, false, TokLParen);
    assert p.rest[1..] == rest && Advance(p.(tok := TokLParen)) == t;
    assert SkipBlank(p, false) == Some(p) && Chomp(s) == Some(t);
    StuckForEver(t);
    assert Work(Chomp(t).value) >= Work(t);
  }
}
