/** The recursive-descent reader. */
module Reader {
  import opened Options
  import opened Token

  /** What the reader builds: nil, values, symbols and conses. */
  datatype Tree = Nil | Value(v: int) | Symbol(name: seq<int>) | Cons(car: Tree, cdr: Tree)

  datatype Status =
    | PARSE_OK
    | PARSE_UNEXPECTED_DOT
    | PARSE_UNEXPECTED_RPAREN
    | PARSE_TOKEN_UNDERFLOW
    | PARSE_EXPECTED_RPAREN
    | PARSE_EXPECTED_ATOM
    | PARSE_EXPECTED_LPAREN_ATOM
    | PARSE_END

  /** Diverges: the original never returns, because a token is never consumed or the tokenizer hangs. Faults: it
      drops a node that is missing, and looks for the memory manager in front of address zero. */
  datatype Parsed = Diverges | Faults | Parsed(status: Status, tree: Tree, state: TokState)

  /** The way out with an error: the node that there is so far is dropped. */
  function Dropping(status: Status, tree: Tree, s: TokState): Parsed {
    if tree == Nil then Faults else Parsed(status, Nil, s)
  }

  /** A symbol's name is the C string in the token's buffer. */
  function CString(s: seq<int>): seq<int> {
    if s == [] || s[0] == 0 then [] else [s[0]] + CString(s[1..])
  }

  /** Parsing gets on as long as input is consumed or its end is found. */
  function Work(s: TokState): nat {
    2 * Left(s) + if s.tok.TokEnd? then 0 else 1
  }

  function ParseAtom(s: TokState): Parsed
    requires s.tok.TokSym? || s.tok.TokLit?
  {
    var t := if s.tok.TokSym? then Symbol(CString(s.tok.name)) else Value(s.tok.lit);
    var n := Chomp(s);
    if n.None? then Diverges else Parsed(PARSE_OK, t, n.value)
  }

  function ParseSexpr(s: TokState): Parsed
    decreases Work(s), 0
  {
    match s.tok
    case TokEnd => Parsed(PARSE_END, Nil, s)
    case TokSym(_) => ParseAtom(s)
    case TokLit(_) => ParseAtom(s)
    case TokLParen =>
      var n := Chomp(s);
      if n.None? then Diverges
      else if n.value.tok.TokEnd? then Dropping(PARSE_TOKEN_UNDERFLOW, Nil, n.value)
      else if n.value.tok.TokRParen? then
        var m := Chomp(n.value);
        if m.None? then Diverges else Parsed(PARSE_OK, Nil, m.value)
      else if n.value.tok.TokDot? then Dropping(PARSE_UNEXPECTED_DOT, Nil, n.value)
      else if Work(n.value) >= Work(s) then Diverges
      else CloseList(ParseList(n.value))
    case _ => Dropping(PARSE_EXPECTED_LPAREN_ATOM, Nil, s)
  }

  /** The closing parenthesis behind a list. */
  function CloseList(p: Parsed): Parsed {
    if !p.Parsed? then p
    else if p.state.tok.TokEnd? then Dropping(PARSE_TOKEN_UNDERFLOW, p.tree, p.state)
    else if p.state.tok.TokRParen? then
      var m := Chomp(p.state);
      if m.None? then Diverges else Parsed(p.status, p.tree, m.value)
    else Dropping(PARSE_EXPECTED_RPAREN, p.tree, p.state)
  }

  function ParseList(s: TokState): Parsed
    decreases Work(s), 1
  {
    if s.tok.TokEnd? then Parsed(PARSE_TOKEN_UNDERFLOW, Nil, s)
    else if s.tok.TokRParen? then Parsed(PARSE_OK, Nil, s)
    else if s.tok.TokDot? then
      var n := Chomp(s);
      if n.None? then Diverges
      else if n.value.tok.TokEnd? then Parsed(PARSE_TOKEN_UNDERFLOW, Nil, n.value)
      else if n.value.tok.TokRParen? then Parsed(PARSE_UNEXPECTED_RPAREN, Nil, n.value)
      else if n.value.tok.TokDot? then Parsed(PARSE_UNEXPECTED_DOT, Nil, n.value)
      else if Work(n.value) >= Work(s) then StuckSexpr(n.value)
      else ParseSexpr(n.value)
    else
      var child := ParseSexpr(s);
      if !child.Parsed? || child.status != PARSE_OK then child
      else if Work(child.state) >= Work(s) then Diverges
      else
        var next := ParseList(child.state);
        if !next.Parsed? then next
        else if next.status != PARSE_OK then Dropping(next.status, next.tree, next.state)
        else Parsed(PARSE_OK, Cons(child.tree, next.tree), next.state)
  }

  /** After a dot the token that is never consumed can only be the literal a stray quote reads as. */
  function StuckSexpr(s: TokState): Parsed {
    if s.tok.TokSym? || s.tok.TokLit? then ParseAtom(s) else Diverges
  }

  /** parse: the first call primes the tokenizer. */
  function Parse(s: TokState): Parsed {
    var p := if s.tok.TokInit? then Chomp(s) else Some(s);
    if p.None? then Diverges else ParseSexpr(p.value)
  }

  // ----- a token that is not consumed is the stray quote's, and it never goes away

  /** Inside of a string every token consumes input. */
  lemma StringProgress(p: TokState)
    requires p.inString && p.nextch != EOF
    ensures Left(StringChar(p)) < Left(p)
  {
    var e := Advance(p);
    ReadOctalLeft(Advance(e), e.nextch - '0' as int);
  }

  /** The next character is a quote that is taken for the start of an atom. */
  predicate AtQuote(s: TokState) {
    !Primed(s).inString && Primed(s).nextch == QUOTE
  }

  /** A token other than the end consumes nothing exactly in front of a quote. */
  lemma QuoteExact(s: TokState)
    ensures Chomp(s).Some? && Left(Chomp(s).value) == Left(s) && !Chomp(s).value.tok.TokEnd? <==> AtQuote(s)
  {
    hide StringChar;
    var p := Primed(s);
    if p.inString {
      StringProgress(p);
    } else {
      SkipBlankLeft(p, false);
      SkipBlankLeft(Advance(p), InComment(p.nextch, false));
      var b := SkipBlank(p, false);
      if b.Some? && b.value.nextch != EOF {
        AtomProgress(b.value);
      }
    }
  }

  /** Then it is the number 0, and it comes again for ever. */
  lemma StuckForEver(s: TokState)
    requires AtQuote(s)
    ensures Chomp(s) == Some(Primed(s).(tok := TokLit(0))) && Chomp(Chomp(s).value) == Chomp(s)
  {
    AtomProgress(Primed(s));
  }

  lemma AtomProgress(b: TokState)
    requires b.nextch != EOF && !IsSpace(b.nextch)
    ensures Atom(b).Some? ==> Left(Atom(b).value) <= Left(b)
    ensures Atom(b).Some? && IsAtomChar(b.nextch) ==> Left(Atom(b).value) < Left(b)
    ensures b.nextch == QUOTE ==> Atom(b) == Some(b.(tok := TokLit(0)))
  {
    ReadAtomLeft(b, []);
    DiscardAtomLeft(ReadAtom(b, []).1);
    if IsAtomChar(b.nextch) {
      ReadAtomLeft(Advance(b), [b.nextch]);
      assert [] + [b.nextch] == [b.nextch];
      ReadAtomGrows(Advance(b), [b.nextch]);
    }
  }

  lemma {:induction false} ReadAtomGrows(s: TokState, buf: seq<int>)
    ensures |buf| <= |ReadAtom(s, buf).0|
    decreases |s.rest|, if s.nextch == EOF then 0 else 1
  {
    if |buf| < SYM_ROOM && IsAtomChar(s.nextch) && s.nextch != EOF {
      ReadAtomGrows(Advance(s), buf + [s.nextch]);
    }
  }

  // ----- the reader itself: recursive methods that advance a shared tokenizer

  /** How a call of the reader ends. */
  datatype Ending = BACK | HUNG | FAULT

  ghost predicate Does(p: Parsed, end: Ending, status: Status, tree: Tree, state: TokState) {
    match p
    case Diverges => end == HUNG
    case Faults => end == FAULT
    case _ => end == BACK && p == Parsed(status, tree, state)
  }

  function Hanging(hung: bool): Ending {
    if hung then HUNG else BACK
  }

  /** node_droproot */
  function DropRoot(tree: Tree): Ending {
    if tree == Nil then FAULT else BACK
  }

  method ReadAtomNode(ts: Tokenizer) returns (end: Ending, status: Status, tree: Tree)
    requires ts.tok.TokSym? || ts.tok.TokLit?
    modifies ts
    ensures Does(ParseAtom(old(ts.View())), end, status, tree, ts.View())
  {
    status := PARSE_OK;
    tree := if ts.tok.TokSym? then Symbol(CString(ts.tok.name)) else Value(ts.tok.lit);
    var hung := ts.TokenChomp();
    end := Hanging(hung);
  }

  method ReadSexpr(ts: Tokenizer) returns (end: Ending, status: Status, tree: Tree)
    modifies ts
    ensures Does(ParseSexpr(old(ts.View())), end, status, tree, ts.View())
    decreases Work(ts.View()), 0
  {
    end, status, tree := BACK, PARSE_OK, Nil;
    var hung;
    match ts.tok
    case TokEnd =>
      status := PARSE_END;
    case TokSym(_) =>
      end, status, tree := ReadAtomNode(ts);
    case TokLit(_) =>
      end, status, tree := ReadAtomNode(ts);
    case TokLParen =>
      var before := WorkLeft(ts);
      hung := ts.TokenChomp();
      if hung { return HUNG, PARSE_OK, Nil; }
      match ts.tok {
        case TokEnd =>
          return DropRoot(tree), PARSE_TOKEN_UNDERFLOW, Nil;
        case TokRParen =>
          hung := ts.TokenChomp();
          end := Hanging(hung);
          return;
        case TokDot =>
          return DropRoot(tree), PARSE_UNEXPECTED_DOT, Nil;
        case _ =>
      }
      var after := WorkLeft(ts);
      if after >= before { return HUNG, PARSE_OK, Nil; }
      end, status, tree := ReadList(ts);
      if end != BACK { return; }
      match ts.tok {
        case TokEnd =>
          return DropRoot(tree), PARSE_TOKEN_UNDERFLOW, Nil;
        case TokRParen =>
          hung := ts.TokenChomp();
          end := Hanging(hung);
        case _ =>
          return DropRoot(tree), PARSE_EXPECTED_RPAREN, Nil;
      }
    case _ =>
      return DropRoot(tree), PARSE_EXPECTED_LPAREN_ATOM, Nil;
  }

  /** Not in the original, which would recurse for ever where this finds that nothing was consumed. */
  method WorkLeft(ts: Tokenizer) returns (n: nat)
    ensures n == Work(ts.View())
  {
    n := 2 * (|ts.rest| + if ts.nextch == EOF then 0 else 1) + if ts.tok.TokEnd? then 0 else 1;
  }

  method ReadList(ts: Tokenizer) returns (end: Ending, status: Status, tree: Tree)
    modifies ts
    ensures Does(ParseList(old(ts.View())), end, status, tree, ts.View())
    decreases Work(ts.View()), 1
  {
    end, status, tree := BACK, PARSE_OK, Nil;
    var before := WorkLeft(ts);
    if ts.tok.TokEnd? {
      status := PARSE_TOKEN_UNDERFLOW;
    } else if ts.tok.TokRParen? {
      // an empty rest of the list; the parenthesis is the caller's to consume
    } else if ts.tok.TokDot? {
      var hung := ts.TokenChomp();
      if hung { return HUNG, PARSE_OK, Nil; }
      match ts.tok {
        case TokEnd =>
          status := PARSE_TOKEN_UNDERFLOW;
          return;
        case TokRParen =>
          status := PARSE_UNEXPECTED_RPAREN;
          return;
        case TokDot =>
          status := PARSE_UNEXPECTED_DOT;
          return;
        case _ =>
      }
      var after := WorkLeft(ts);
      if after < before {
        end, status, tree := ReadSexpr(ts);
      } else if ts.tok.TokSym? || ts.tok.TokLit? {
        end, status, tree := ReadAtomNode(ts);
      } else {
        end := HUNG;
      }
    } else {
      var child, next;
      end, status, child := ReadSexpr(ts);
      tree := child;
      if end != BACK || status != PARSE_OK { return; }
      var after := WorkLeft(ts);
      if after >= before { return HUNG, PARSE_OK, Nil; }
      end, status, next := ReadList(ts);
      if end != BACK { return; }
      if status == PARSE_OK {
        tree := Cons(child, next);
      } else {
        end, tree := DropRoot(next), Nil;
      }
    }
  }

  /** parse */
  method Read(ts: Tokenizer) returns (end: Ending, status: Status, tree: Tree)
    modifies ts
    ensures Does(Parse(old(ts.View())), end, status, tree, ts.View())
  {
    if ts.tok.TokInit? {
      var hung := ts.TokenChomp();
      if hung { return HUNG, PARSE_OK, Nil; }
    }
    end, status, tree := ReadSexpr(ts);
  }
}
