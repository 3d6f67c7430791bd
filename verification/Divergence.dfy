/** Where the reader does not return: exactly where the recursion of the original does not end. */
module Divergence {
  import opened Options
  import opened Numbers
  import opened Token
  import opened Reader

  // ----- the reader with bounded recursion

  /** parse_sexpr with at most fuel calls inside of each other; diverges when that does not suffice. */
  function BoundedSexpr(fuel: nat, s: TokState): Parsed {
    if fuel == 0 then Diverges else
    match s.tok
    case TokEnd => Parsed(PARSE_END, Nil, s)
    case TokSym(_) => ParseAtom(s)
    case TokLit(_) => ParseAtom(s)
    case TokLParen =>
      var n := Chomp(s);
      if n.None? then Diverges
      else if n.value.tok.TokEnd? then Dropping(PARSE_TOKEN_UNDERFLOW, Nil, n.value)
      else if n.value.tok.TokRParen? then
        var m := Chomp(n.value);
        if m.None? then Diverges else Parsed(PARSE_OK, Nil, m.value)
      else if n.value.tok.TokDot? then Dropping(PARSE_UNEXPECTED_DOT, Nil, n.value)
      else CloseList(BoundedList(fuel - 1, n.value))
    case _ => Dropping(PARSE_EXPECTED_LPAREN_ATOM, Nil, s)
  }

  /** parse_list, likewise. */
  function BoundedList(fuel: nat, s: TokState): Parsed {
    if fuel == 0 then Diverges
    else if s.tok.TokEnd? then Parsed(PARSE_TOKEN_UNDERFLOW, Nil, s)
    else if s.tok.TokRParen? then Parsed(PARSE_OK, Nil, s)
    else if s.tok.TokDot? then
      var n := Chomp(s);
      if n.None? then Diverges
      else if n.value.tok.TokEnd? then Parsed(PARSE_TOKEN_UNDERFLOW, Nil, n.value)
      else if n.value.tok.TokRParen? then Parsed(PARSE_UNEXPECTED_RPAREN, Nil, n.value)
      else if n.value.tok.TokDot? then Parsed(PARSE_UNEXPECTED_DOT, Nil, n.value)
      else BoundedSexpr(fuel - 1, n.value)
    else
      var child := BoundedSexpr(fuel - 1, s);
      if !child.Parsed? || child.status != PARSE_OK then child
      else
        var next := BoundedList(fuel - 1, child.state);
        if !next.Parsed? then next
        else if next.status != PARSE_OK then Dropping(next.status, next.tree, next.state)
        else Parsed(PARSE_OK, Cons(child.tree, next.tree), next.state)
  }

  // ----- how far the reader gets

  /** The state when n more tokens have been read. */
  function Nth(s: TokState, n: nat): Option<TokState>
    decreases n
  {
    if n == 0 then Some(s)
    else if Chomp(s).None? then None else Nth(Chomp(s).value, n - 1)
  }

  lemma {:induction false} NthAdds(s: TokState, a: nat, b: nat)
    requires Nth(s, a).Some?
    ensures Nth(s, a + b) == Nth(Nth(s, a).value, b)
    decreases a
  {
    hide Chomp;
    if a > 0 {
      NthAdds(Chomp(s).value, a - 1, b);
    }
  }

  /** What has been parsed ends behind some of the tokens. */
  lemma {:induction false} SexprAhead(s: TokState) returns (n: nat)
    requires ParseSexpr(s).Parsed?
    ensures Nth(s, n) == Some(ParseSexpr(s).state)
    ensures ParseSexpr(s).status == PARSE_OK ==> n > 0
    decreases Work(s), 0
  {
    hide Chomp, Left;
    n := 0;
    assert Nth(s, 0) == Some(s);
    if s.tok.TokSym? || s.tok.TokLit? {
      assert Nth(Chomp(s).value, 0) == Chomp(s);
      n := 1;
    } else if s.tok.TokLParen? {
      var t := Chomp(s).value;
      assert Nth(t, 0) == Some(t);
      n := 1;
      if t.tok.TokRParen? {
        assert Nth(Chomp(t).value, 0) == Chomp(t);
        assert Nth(t, 1) == Chomp(t);
        n := 2;
      } else if !t.tok.TokEnd? && !t.tok.TokDot? {
        var k := ListAhead(t);
        n := CloseAhead(s, ParseList(t), k + 1);
      }
    }
  }

  lemma CloseAhead(s: TokState, p: Parsed, k: nat) returns (n: nat)
    requires p.Parsed? && k > 0 && Nth(s, k) == Some(p.state) && CloseList(p).Parsed?
    ensures n > 0 && Nth(s, n) == Some(CloseList(p).state)
  {
    n := k;
    if p.state.tok.TokRParen? {
      NthAdds(s, k, 1);
      assert Nth(Chomp(p.state).value, 0) == Chomp(p.state);
      n := k + 1;
    }
  }

  lemma {:induction false} ListAhead(s: TokState) returns (n: nat)
    requires ParseList(s).Parsed?
    ensures Nth(s, n) == Some(ParseList(s).state)
    decreases Work(s), 1
  {
    hide Chomp, Left;
    n := 0;
    assert Nth(s, 0) == Some(s);
    if s.tok.TokEnd? || s.tok.TokRParen? {
    } else if s.tok.TokDot? {
      var t := Chomp(s).value;
      assert Nth(t, 0) == Some(t);
      n := 1;
      if !t.tok.TokEnd? && !t.tok.TokRParen? && !t.tok.TokDot? {
        if Work(t) >= Work(s) {
          assert Nth(Chomp(t).value, 0) == Chomp(t);
          assert Nth(t, 1) == Chomp(t);
          n := 2;
        } else {
          var k := SexprAhead(t);
          n := k + 1;
        }
      }
    } else {
      n := SexprAhead(s);
      var child := ParseSexpr(s);
      if child.Parsed? && child.status == PARSE_OK {
        var k := ListAhead(child.state);
        NthAdds(s, n, k);
        n := n + k;
      }
    }
  }

  lemma {:induction false} NthLeft(s: TokState, n: nat)
    requires Nth(s, n).Some?
    ensures Left(Nth(s, n).value) <= Left(s)
    decreases n
  {
    hide Chomp, Left;
    if n > 0 {
      ChompLeft(s);
      NthLeft(Chomp(s).value, n - 1);
    }
  }

  // ----- no progress means the quote

  /** A token that leaves as much work as there was is the quote's. */
  lemma NoProgress(s: TokState)
    requires !s.tok.TokEnd? && Chomp(s).Some? && Work(Chomp(s).value) >= Work(s)
    ensures AtQuote(s) && Chomp(s).value.tok == TokLit(0) && Chomp(Chomp(s).value) == Chomp(s)
  {
    ChompLeft(s);
    QuoteExact(s);
    StuckForEver(s);
  }

  lemma {:induction false} QuoteNth(s: TokState, n: nat)
    requires AtQuote(s) && n > 0
    ensures Nth(s, n) == Chomp(s)
    decreases n
  {
    StuckForEver(s);
    var t := Chomp(s).value;
    assert Nth(t, 0) == Some(t);
    if n > 1 {
      assert AtQuote(t);
      QuoteNth(t, n - 1);
    }
  }

  /** The end of input is only next behind an expression that is a single token. */
  lemma EndBehind(s: TokState)
    requires ParseSexpr(s).Parsed? && ParseSexpr(s).status == PARSE_OK && Chomp(s).Some?
    ensures Chomp(s).value.tok.TokEnd? ==> ParseSexpr(s).state == Chomp(s).value && !s.tok.TokEnd?
  {
    hide Chomp, Left;
  }

  /** An expression that has been parsed without progress ended at the quote. */
  lemma ChildNoProgress(s: TokState)
    requires ParseSexpr(s).Parsed? && ParseSexpr(s).status == PARSE_OK && Work(ParseSexpr(s).state) >= Work(s)
    ensures AtQuote(s) && ParseSexpr(s).state == Chomp(s).value
  {
    hide Chomp, Left, AtQuote, ParseSexpr;
    var n := SexprAhead(s);
    var t := Chomp(s).value;
    assert Nth(s, n) == Nth(t, n - 1);
    NthLeft(t, n - 1);
    ChompLeft(s);
    EndBehind(s);
    assert Left(t) == Left(s);
    if !t.tok.TokEnd? {
      QuoteExact(s);
      QuoteNth(s, n);
    }
  }

  // ----- no result means no end of the recursion

  /** Reading a list in front of the quote's token never ends. */
  lemma {:induction false} QuoteRecurses(fuel: nat, s: TokState)
    requires s.tok == TokLit(0) && Chomp(s) == Some(s)
    ensures BoundedList(fuel, s).Diverges?
  {
    if fuel > 1 {
      QuoteRecurses(fuel - 1, s);
      assert BoundedSexpr(fuel - 1, s) == Parsed(PARSE_OK, Value(0), s);
    }
  }

  /** If the recursion ends within some depth, its result is the reader's. */
  lemma {:induction false} SexprSound(fuel: nat, s: TokState)
    requires !BoundedSexpr(fuel, s).Diverges?
    ensures ParseSexpr(s) == BoundedSexpr(fuel, s)
    decreases fuel
  {
    hide Chomp, Left;
    if s.tok.TokLParen? {
      var t := Chomp(s).value;
      if !t.tok.TokEnd? && !t.tok.TokRParen? && !t.tok.TokDot? {
        if Work(t) >= Work(s) {
          NoProgress(s);
          QuoteRecurses(fuel - 1, t);
        }
        ListSound(fuel - 1, t);
      }
    }
  }

  lemma {:induction false} ListSound(fuel: nat, s: TokState)
    requires !BoundedList(fuel, s).Diverges?
    ensures ParseList(s) == BoundedList(fuel, s)
    decreases fuel
  {
    hide Chomp, Left;
    if s.tok.TokEnd? || s.tok.TokRParen? {
    } else if s.tok.TokDot? {
      var t := Chomp(s).value;
      if !t.tok.TokEnd? && !t.tok.TokRParen? && !t.tok.TokDot? {
        SexprSound(fuel - 1, t);
        if Work(t) >= Work(s) {
          NoProgress(s);
        }
      }
    } else {
      SexprSound(fuel - 1, s);
      var child := ParseSexpr(s);
      if child.Parsed? && child.status == PARSE_OK {
        if Work(child.state) >= Work(s) {
          ChildNoProgress(s);
          StuckForEver(s);
          QuoteRecurses(fuel - 1, child.state);
        }
        ListSound(fuel - 1, child.state);
      }
    }
  }

  /** If the reader has a result, the recursion ends within a depth that the input's length bounds. */
  lemma {:induction false} SexprComplete(fuel: nat, s: TokState)
    requires !ParseSexpr(s).Diverges? && fuel > 2 * Work(s)
    ensures BoundedSexpr(fuel, s) == ParseSexpr(s)
    decreases Work(s), 0
  {
    hide Chomp, Left;
    if s.tok.TokLParen? {
      var t := Chomp(s).value;
      if !t.tok.TokEnd? && !t.tok.TokRParen? && !t.tok.TokDot? {
        ListComplete(fuel - 1, t);
      }
    }
  }

  lemma {:induction false} ListComplete(fuel: nat, s: TokState)
    requires !ParseList(s).Diverges? && fuel > 2 * Work(s) + 1
    ensures BoundedList(fuel, s) == ParseList(s)
    decreases Work(s), 1
  {
    hide Chomp, Left;
    if s.tok.TokEnd? || s.tok.TokRParen? {
    } else if s.tok.TokDot? {
      var t := Chomp(s).value;
      if !t.tok.TokEnd? && !t.tok.TokRParen? && !t.tok.TokDot? {
        if Work(t) >= Work(s) {
          NoProgress(s);
        } else {
          SexprComplete(fuel - 1, t);
        }
      }
    } else {
      SexprComplete(fuel - 1, s);
      var child := ParseSexpr(s);
      if child.Parsed? && child.status == PARSE_OK {
        ListComplete(fuel - 1, child.state);
      }
    }
  }

  /** The reader has a result just if the recursion of the original ends, and then it is that result. */
  lemma ParseExact(s: TokState, p: Parsed)
    requires !p.Diverges?
    ensures ParseSexpr(s) == p <==> exists fuel: nat :: BoundedSexpr(fuel, s) == p
  {
    if ParseSexpr(s) == p {
      SexprComplete(2 * Work(s) + 1, s);
      assert BoundedSexpr(2 * Work(s) + 1, s) == p;
    }
    if fuel: nat :| BoundedSexpr(fuel, s) == p {
      SexprSound(fuel, s);
    }
  }

  /** It diverges just if the recursion does not end at any depth. */
  lemma DivergesExact(s: TokState)
    ensures ParseSexpr(s).Diverges? <==> forall fuel: nat :: BoundedSexpr(fuel, s).Diverges?
  {
    if !ParseSexpr(s).Diverges? {
      ParseExact(s, ParseSexpr(s));
    }
    forall fuel: nat | ParseSexpr(s).Diverges?
      ensures BoundedSexpr(fuel, s).Diverges?
    {
      if !BoundedSexpr(fuel, s).Diverges? {
        SexprSound(fuel, s);
      }
    }
  }

  // ----- texts that are always read

  /** No quote is left in the input, and it ends in a newline, or nothing is left of it. */
  predicate Benign(s: TokState) {
    QUOTE !in Upcoming(s) && (Upcoming(s) == [EOF] || Upcoming(s)[|s.rest|] == NEWLINE)
  }

  lemma AdvanceBenign(s: TokState)
    requires Benign(s)
    ensures Benign(Advance(s))
  {
    if s.rest != [] {
      assert Upcoming(Advance(s)) == s.rest == Upcoming(s)[1..];
    }
  }

  lemma {:induction false} SkipBenign(s: TokState, inComment: bool)
    requires Benign(s)
    ensures SkipBlank(s, inComment).Some? ==> Benign(SkipBlank(s, inComment).value)
    decreases |s.rest|, if s.nextch == EOF then 0 else 1
  {
    hide Benign;
    if Skips(s, inComment) && !(s.rest == [] && s.nextch == EOF) {
      AdvanceBenign(s);
      SkipBenign(Advance(s), InComment(s.nextch, inComment));
    }
  }

  lemma {:induction false} ReadAtomBenign(s: TokState, buf: seq<int>)
    requires Benign(s)
    ensures Benign(ReadAtom(s, buf).1)
    decreases |s.rest|, if s.nextch == EOF then 0 else 1
  {
    hide Benign;
    if |buf| < SYM_ROOM && IsAtomChar(s.nextch) && s.nextch != EOF {
      AdvanceBenign(s);
      ReadAtomBenign(Advance(s), buf + [s.nextch]);
    }
  }

  lemma {:induction false} DiscardBenign(s: TokState)
    requires Benign(s)
    ensures DiscardAtom(s).Some? ==> Benign(DiscardAtom(s).value)
    decreases |s.rest|, if s.nextch == EOF then 0 else 1
  {
    hide Benign;
    if IsAtomChar(s.nextch) && !(s.rest == [] && s.nextch == EOF) {
      AdvanceBenign(s);
      DiscardBenign(Advance(s));
    }
  }

  lemma {:induction false} OctalBenign(s: TokState, lit: int)
    requires Benign(s)
    ensures Benign(ReadOctal(s, lit).1)
    decreases |s.rest|, if s.nextch == EOF then 0 else 1
  {
    hide Benign;
    if IsOctal(s.nextch) {
      AdvanceBenign(s);
      OctalBenign(Advance(s), Wrap(lit * 8 + (s.nextch - '0' as int)));
    }
  }

  lemma Relabelled(s: TokState, t: TokState)
    requires Benign(s) && t.rest == s.rest && t.nextch == s.nextch
    ensures Benign(t)
  {
  }

  lemma StringBenign(s: TokState)
    requires Benign(s)
    ensures Benign(StringChar(s))
  {
    hide Benign;
    var e := Advance(s);
    AdvanceBenign(s);
    AdvanceBenign(e);
    OctalBenign(Advance(e), e.nextch - '0' as int);
    Relabelled(e, StringChar(s).(rest := e.rest, nextch := e.nextch));
    Relabelled(Advance(e), StringChar(s).(rest := Advance(e).rest, nextch := Advance(e).nextch));
    var o := ReadOctal(Advance(e), e.nextch - '0' as int).1;
    Relabelled(o, StringChar(s).(rest := o.rest, nextch := o.nextch));
  }

  lemma PrimedBenign(s: TokState)
    requires Benign(s)
    ensures Benign(Primed(s))
  {
    AdvanceBenign(s.(inString := false));
  }

  lemma PlainBenign(s: TokState)
    requires Benign(s)
    ensures PlainToken(s).Some? ==> Benign(PlainToken(s).value)
  {
    hide Benign;
    AdvanceBenign(s);
    ReadAtomBenign(s, []);
    var (buf, a) := ReadAtom(s, []);
    DiscardBenign(a);
    if PlainToken(s).Some? {
      var r := PlainToken(s).value;
      Relabelled(Advance(s), r.(rest := Advance(s).rest, nextch := Advance(s).nextch));
      Relabelled(a, r.(rest := a.rest, nextch := a.nextch));
      if DiscardAtom(a).Some? {
        var d := DiscardAtom(a).value;
        Relabelled(d, r.(rest := d.rest, nextch := d.nextch));
      }
    }
  }

  /** In front of such input the tokenizer neither hangs nor meets a quote, and there is such input behind. */
  lemma ChompBenign(s: TokState)
    requires Benign(s)
    ensures !Hangs(s) && !AtQuote(s) && Chomp(s).Some? && Benign(Chomp(s).value)
  {
    PrimedBenign(s);
    var p := Primed(s);
    NotEndless(p);
    ChompHangs(s);
    hide Benign;
    if p.inString {
      StringBenign(p);
    } else {
      SkipBenign(p, false);
      PlainBenign(SkipBlank(p, false).value);
    }
  }

  lemma {:induction false} NoEndInComment(text: seq<int>, inComment: bool)
    requires text != [] && text[|text| - 1] == NEWLINE
    ensures !EndsInComment(text, inComment)
    decreases |text|
  {
    if |text| > 1 {
      NoEndInComment(text[1..], InComment(text[0], inComment));
    } else {
      assert text[1..] == [];
    }
  }

  lemma NotEndless(p: TokState)
    requires Benign(p)
    ensures !Endless(Upcoming(p)) && p.nextch != QUOTE
  {
    var t := Upcoming(p);
    assert t[0] == p.nextch;
    var a := t[Blanks(t, false)..];
    OverlongIs(a);
    if t[|p.rest|] == NEWLINE {
      NoEndInComment(t, false);
      assert a != [] ==> a[|a| - 1] == NEWLINE;
    }
  }

  lemma {:induction false} NthBenign(s: TokState, n: nat)
    requires Benign(s) && Nth(s, n).Some?
    ensures Benign(Nth(s, n).value)
    decreases n
  {
    if n > 0 {
      ChompBenign(s);
      NthBenign(Chomp(s).value, n - 1);
    }
  }
}
