/** The tokenizer. Input characters are C's signed chars; -1 stands for the end of input, also when
    it is read as a character. */
module Token {
  import opened Options
  import opened Numbers

  datatype Tok = TokInit | TokLParen | TokRParen | TokDot | TokSym(name: seq<int>) | TokLit(lit: int) | TokEnd

  /** The unread input, the one character of lookahead, the string mode and the current token. */
  datatype TokState = TokState(rest: seq<int>, nextch: int, inString: bool, tok: Tok)

  const EOF := -1
  const NEWLINE := '\n' as int
  const SPACE := ' ' as int
  const HASH := '#' as int
  const QUOTE := '\'' as int
  const DQUOTE := '"' as int
  const BACKSLASH := '\\' as int
  const LPAREN := '(' as int
  const RPAREN := ')' as int
  const DOT := '.' as int
  const SYM_ROOM := 32

  predicate IsSpace(c: int) {
    9 <= c <= 13 || c == SPACE
  }

  predicate IsAtomChar(c: int) {
    !IsSpace(c) && c != LPAREN && c != RPAREN && c != DOT && c != QUOTE
  }

  predicate IsOctal(c: int) {
    '0' as int <= c <= '7' as int
  }

  function Advance(s: TokState): TokState {
    if s.rest == [] then s.(nextch := EOF) else s.(nextch := s.rest[0], rest := s.rest[1..])
  }

  /** How much input is still to be looked at, the lookahead included. */
  function Left(s: TokState): nat {
    |s.rest| + if s.nextch == EOF then 0 else 1
  }

  /** Whether the loop over blanks takes the character as part of a comment. */
  predicate InComment(c: int, inComment: bool) {
    if c == HASH then true else if c == NEWLINE then false else inComment
  }

  /** Skip blanks and comments. A comment that the input ends in is skipped for ever: no result. */
  function SkipBlank(s: TokState, inComment: bool): Option<TokState>
    decreases |s.rest|, if s.nextch == EOF then 0 else 1
  {
    if !IsSpace(s.nextch) && !InComment(s.nextch, inComment) then Some(s)
    else if s.rest == [] && s.nextch == EOF then None
    else SkipBlank(Advance(s), InComment(s.nextch, inComment))
  }

  /** Read at most SYM_ROOM characters of an atom behind those already read. */
  function ReadAtom(s: TokState, buf: seq<int>): (seq<int>, TokState)
    decreases |s.rest|, if s.nextch == EOF then 0 else 1
  {
    if |buf| < SYM_ROOM && IsAtomChar(s.nextch) && s.nextch != EOF
    then ReadAtom(Advance(s), buf + [s.nextch])
    else (buf, s)
  }

  /** Discard the rest of an overlong atom. The end of input counts as part of it: no result then. */
  function DiscardAtom(s: TokState): Option<TokState>
    decreases |s.rest|, if s.nextch == EOF then 0 else 1
  {
    if !IsAtomChar(s.nextch) then Some(s)
    else if s.rest == [] && s.nextch == EOF then None
    else DiscardAtom(Advance(s))
  }

  function ReadOctal(s: TokState, lit: int): (int, TokState)
    decreases |s.rest|, if s.nextch == EOF then 0 else 1
  {
    if IsOctal(s.nextch) then ReadOctal(Advance(s), Wrap(lit * 8 + (s.nextch - '0' as int))) else (lit, s)
  }

  /** One character of a string literal, escapes decoded. */
  function StringChar(s: TokState): TokState {
    if s.nextch == DQUOTE then Advance(s.(inString := false, tok := TokRParen))
    else if s.nextch != BACKSLASH then Advance(s.(tok := TokLit(s.nextch)))
    else
      var e := Advance(s);
      if e.nextch == EOF then Advance(e.(inString := false, tok := TokLit(BACKSLASH)))
      else if e.nextch == 'n' as int then Advance(e.(tok := TokLit(0xA)))
      else if e.nextch == 'r' as int then Advance(e.(tok := TokLit(0xD)))
      else if e.nextch == 't' as int then Advance(e.(tok := TokLit(0x9)))
      else if IsOctal(e.nextch) then
        var (lit, o) := ReadOctal(Advance(e), e.nextch - '0' as int);
        o.(tok := TokLit(lit))
      else Advance(e.(tok := TokLit(e.nextch)))
  }

  /** A number when strtoll consumes all of it, a symbol otherwise. */
  function AtomTok(buf: seq<int>): Tok {
    var n := Strtoll(buf);
    if n.end == |buf| then TokLit(n.value) else TokSym(buf)
  }

  function Atom(s: TokState): Option<TokState> {
    var (buf, a) := ReadAtom(s, []);
    var d := if |buf| == SYM_ROOM then DiscardAtom(a) else Some(a);
    if d.None? then None else Some(d.value.(tok := AtomTok(buf)))
  }

  /** The token that starts at the lookahead of a state outside of string mode. */
  function PlainToken(s: TokState): Option<TokState> {
    if s.nextch == EOF then Some(Advance(s.(tok := TokEnd)))
    else if s.nextch == DQUOTE then Some(Advance(s.(tok := TokLParen, inString := true)))
    else if s.nextch == LPAREN then Some(Advance(s.(tok := TokLParen)))
    else if s.nextch == RPAREN then Some(Advance(s.(tok := TokRParen)))
    else if s.nextch == DOT then Some(Advance(s.(tok := TokDot)))
    else Atom(s)
  }

  /** The first character of the input is read when there is no lookahead. */
  function Primed(s: TokState): TokState {
    if s.nextch == EOF then Advance(s.(inString := false)) else s
  }

  /** token_chomp: the state after the next token, or none when the tokenizer loops for ever. */
  function Chomp(s: TokState): Option<TokState> {
    var p := Primed(s);
    if p.inString then Some(StringChar(p))
    else
      var b := SkipBlank(p, false);
      if b.None? then None else PlainToken(b.value)
  }

  // ----- nothing is ever unread

  lemma {:induction false} SkipBlankLeft(s: TokState, inComment: bool)
    ensures SkipBlank(s, inComment).Some? ==>
      var r := SkipBlank(s, inComment).value;
      Left(r) <= Left(s) && r.inString == s.inString && r.tok == s.tok && !IsSpace(r.nextch)
    decreases |s.rest|, if s.nextch == EOF then 0 else 1
  {
    if (IsSpace(s.nextch) || InComment(s.nextch, inComment)) && !(s.rest == [] && s.nextch == EOF) {
      SkipBlankLeft(Advance(s), InComment(s.nextch, inComment));
    }
  }

  lemma {:induction false} ReadAtomLeft(s: TokState, buf: seq<int>)
    ensures Left(ReadAtom(s, buf).1) + |ReadAtom(s, buf).0| <= Left(s) + |buf|
    decreases |s.rest|, if s.nextch == EOF then 0 else 1
  {
    if |buf| < SYM_ROOM && IsAtomChar(s.nextch) && s.nextch != EOF {
      ReadAtomLeft(Advance(s), buf + [s.nextch]);
    }
  }

  lemma {:induction false} DiscardAtomLeft(s: TokState)
    ensures DiscardAtom(s).Some? ==> Left(DiscardAtom(s).value) <= Left(s)
    decreases |s.rest|, if s.nextch == EOF then 0 else 1
  {
    if IsAtomChar(s.nextch) && !(s.rest == [] && s.nextch == EOF) {
      DiscardAtomLeft(Advance(s));
    }
  }

  lemma {:induction false} ReadOctalLeft(s: TokState, lit: int)
    ensures Left(ReadOctal(s, lit).1) <= Left(s)
    decreases |s.rest|, if s.nextch == EOF then 0 else 1
  {
    if IsOctal(s.nextch) {
      ReadOctalLeft(Advance(s), Wrap(lit * 8 + (s.nextch - '0' as int)));
    }
  }

  /** A token never gives input back. */
  lemma ChompLeft(s: TokState)
    ensures Chomp(s).Some? ==> Left(Chomp(s).value) <= Left(s)
  {
    var p := Primed(s);
    assert Left(p) <= Left(s);
    if p.inString {
      var e := Advance(p);
      ReadOctalLeft(Advance(e), e.nextch - '0' as int);
    } else {
      SkipBlankLeft(p, false);
      var b := SkipBlank(p, false);
      if b.Some? {
        ReadAtomLeft(b.value, []);
        DiscardAtomLeft(ReadAtom(b.value, []).1);
      }
    }
  }

  // ----- where the tokenizer loops for ever

  /** The tokenizer's state after n more characters have been taken from the input. */
  function Ahead(s: TokState, n: nat): TokState
    decreases n
  {
    if n == 0 then s else Ahead(Advance(s), n - 1)
  }

  /** Whether the loop over blanks is in a comment when it has gone round n times. */
  predicate CommentAfter(s: TokState, inComment: bool, n: nat)
    decreases n
  {
    if n == 0 then inComment else CommentAfter(Advance(s), InComment(s.nextch, inComment), n - 1)
  }

  /** The loop over blanks goes round once more. */
  predicate Skips(s: TokState, inComment: bool) {
    IsSpace(s.nextch) || InComment(s.nextch, inComment)
  }

  lemma {:induction false} SkipsOn(s: TokState, inComment: bool, n: nat)
    requires SkipBlank(s, inComment).None?
    ensures Skips(Ahead(s, n), CommentAfter(s, inComment, n))
    decreases n
  {
    if n > 0 {
      SkipsOn(Advance(s), InComment(s.nextch, inComment), n - 1);
    }
  }

  /** Otherwise the loop ends, in the state that SkipBlank says. */
  lemma {:induction false} SkipsUntil(s: TokState, inComment: bool) returns (n: nat)
    requires SkipBlank(s, inComment).Some?
    ensures Ahead(s, n) == SkipBlank(s, inComment).value && !Skips(Ahead(s, n), CommentAfter(s, inComment, n))
    decreases |s.rest|, if s.nextch == EOF then 0 else 1
  {
    n := 0;
    if Skips(s, inComment) {
      n := SkipsUntil(Advance(s), InComment(s.nextch, inComment));
      n := n + 1;
    }
  }

  /** Having no result means just that the loop over blanks goes round for ever. */
  lemma SkipsForEver(s: TokState, inComment: bool)
    ensures SkipBlank(s, inComment).None? <==> forall n: nat :: Skips(Ahead(s, n), CommentAfter(s, inComment, n))
  {
    if SkipBlank(s, inComment).None? {
      forall n: nat
        ensures Skips(Ahead(s, n), CommentAfter(s, inComment, n))
      {
        SkipsOn(s, inComment, n);
      }
    } else {
      var n := SkipsUntil(s, inComment);
    }
  }

  lemma {:induction false} DiscardsOn(s: TokState, n: nat)
    requires DiscardAtom(s).None?
    ensures IsAtomChar(Ahead(s, n).nextch)
    decreases n
  {
    if n > 0 {
      DiscardsOn(Advance(s), n - 1);
    }
  }

  lemma {:induction false} DiscardsUntil(s: TokState) returns (n: nat)
    requires DiscardAtom(s).Some?
    ensures Ahead(s, n) == DiscardAtom(s).value && !IsAtomChar(Ahead(s, n).nextch)
    decreases |s.rest|, if s.nextch == EOF then 0 else 1
  {
    n := 0;
    if IsAtomChar(s.nextch) {
      n := DiscardsUntil(Advance(s));
      n := n + 1;
    }
  }

  /** The same for the loop that discards the rest of an atom. */
  lemma DiscardsForEver(s: TokState)
    ensures DiscardAtom(s).None? <==> forall n: nat :: IsAtomChar(Ahead(s, n).nextch)
  {
    if DiscardAtom(s).None? {
      forall n: nat
        ensures IsAtomChar(Ahead(s, n).nextch)
      {
        DiscardsOn(s, n);
      }
    } else {
      var n := DiscardsUntil(s);
    }
  }

  // ----- on which texts that is

  /** The lookahead and the unread input; at the end of input the lookahead is a character of its own. */
  function Upcoming(s: TokState): seq<int> {
    [s.nextch] + s.rest
  }

  /** The text consists of blanks and comments, and its last comment is not ended by a newline. */
  predicate EndsInComment(text: seq<int>, inComment: bool)
    decreases |text|
  {
    if text == [] then inComment
    else
      (IsSpace(text[0]) || InComment(text[0], inComment)) && EndsInComment(text[1..], InComment(text[0], inComment))
  }

  /** How many characters the blanks and comments at the start of the text have. */
  function Blanks(text: seq<int>, inComment: bool): (n: nat)
    ensures n <= |text|
    decreases |text|
  {
    if text != [] && (IsSpace(text[0]) || InComment(text[0], inComment))
    then 1 + Blanks(text[1..], InComment(text[0], inComment)) else 0
  }

  predicate AllAtom(text: seq<int>) {
    text == [] || (IsAtomChar(text[0]) && AllAtom(text[1..]))
  }

  /** The first n characters of the text are there and go into an atom. */
  predicate FillsAtom(text: seq<int>, n: nat) {
    n == 0 || (text != [] && IsAtomChar(text[0]) && text[0] != EOF && FillsAtom(text[1..], n - 1))
  }

  /** The text is one atom that does not fit the symbol buffer and that nothing ends. */
  predicate Overlong(text: seq<int>) {
    FillsAtom(text, SYM_ROOM) && AllAtom(text)
  }

  /** Behind blanks and comments the text is in an unended comment, or is an overlong atom. */
  predicate Endless(text: seq<int>) {
    EndsInComment(text, false) ||
    (var a := text[Blanks(text, false)..];
     Overlong(a) && a[0] != DQUOTE)
  }

  /** The tokenizer never comes back from the next token. */
  predicate Hangs(s: TokState) {
    !Primed(s).inString && Endless(Upcoming(Primed(s)))
  }

  lemma {:induction false} BlankUpcoming(s: TokState, inComment: bool)
    ensures SkipBlank(s, inComment).None? <==> EndsInComment(Upcoming(s), inComment)
    ensures SkipBlank(s, inComment).Some? ==>
      var a := Upcoming(s)[Blanks(Upcoming(s), inComment)..];
      Upcoming(SkipBlank(s, inComment).value) == if a == [] then [EOF] else a
    decreases |s.rest|, if s.nextch == EOF then 0 else 1
  {
    assert Upcoming(s)[1..] == s.rest && Upcoming(s)[0..] == Upcoming(s);
    if Skips(s, inComment) && s.rest != [] {
      assert Upcoming(Advance(s)) == s.rest;
      BlankUpcoming(Advance(s), InComment(s.nextch, inComment));
    } else if Skips(s, inComment) {
      var e := Advance(s);
      assert Upcoming(e) == [EOF] && EndsInComment([], InComment(s.nextch, inComment))
        == InComment(s.nextch, inComment);
    }
  }

  lemma {:induction false} ReadUpcoming(s: TokState, buf: seq<int>)
    requires |buf| <= SYM_ROOM
    ensures var n := SYM_ROOM - |buf|;
      var (b, r) := ReadAtom(s, buf);
      && (|b| == SYM_ROOM <==> FillsAtom(Upcoming(s), n))
      && (|b| == SYM_ROOM
        ==> n <= |Upcoming(s)| && Upcoming(r) == if n < |Upcoming(s)| then Upcoming(s)[n..] else [EOF])
    decreases |s.rest|, if s.nextch == EOF then 0 else 1
  {
    var n := SYM_ROOM - |buf|;
    assert Upcoming(s)[1..] == s.rest && Upcoming(s)[0..] == Upcoming(s);
    if n > 0 && IsAtomChar(s.nextch) && s.nextch != EOF {
      var t := Advance(s);
      ReadUpcoming(t, buf + [s.nextch]);
      if s.rest != [] {
        assert Upcoming(t) == s.rest;
        assert n <= |Upcoming(s)| ==> Upcoming(s)[n..] == s.rest[n - 1..];
      } else {
        assert Upcoming(t) == [EOF];
      }
    }
  }

  lemma {:induction false} DiscardUpcoming(s: TokState)
    ensures DiscardAtom(s).None? <==> AllAtom(Upcoming(s))
    decreases |s.rest|, if s.nextch == EOF then 0 else 1
  {
    assert Upcoming(s)[1..] == s.rest;
    if IsAtomChar(s.nextch) && s.rest != [] {
      assert Upcoming(Advance(s)) == s.rest;
      DiscardUpcoming(Advance(s));
    }
  }

  lemma {:induction false} FillsThen(text: seq<int>, n: nat)
    requires FillsAtom(text, n)
    ensures n <= |text| && (AllAtom(text) <==> AllAtom(text[n..]))
    decreases n
  {
    if n > 0 {
      FillsThen(text[1..], n - 1);
      assert text[1..][n - 1..] == text[n..];
    } else {
      assert text[0..] == text;
    }
  }

  lemma AtomHangs(s: TokState)
    ensures Atom(s).None? <==> Overlong(Upcoming(s))
  {
    hide FillsAtom, ReadAtom, DiscardAtom;
    var (b, r) := ReadAtom(s, []);
    ReadUpcoming(s, []);
    if |b| == SYM_ROOM {
      DiscardUpcoming(r);
      FillsThen(Upcoming(s), SYM_ROOM);
      assert AllAtom([]) && AllAtom([EOF]);
    }
  }

  lemma {:induction false} AllAtomIs(text: seq<int>)
    ensures AllAtom(text) <==> forall i :: 0 <= i < |text| ==> IsAtomChar(text[i])
  {
    if text != [] {
      AllAtomIs(text[1..]);
      if AllAtom(text) {
        assert forall i :: 0 < i < |text| ==> text[i] == text[1..][i - 1];
      } else if IsAtomChar(text[0]) {
        var i :| 0 <= i < |text[1..]| && !IsAtomChar(text[1..][i]);
        assert !IsAtomChar(text[i + 1]);
      }
    }
  }

  lemma {:induction false} FillsAtomIs(text: seq<int>, n: nat)
    ensures FillsAtom(text, n) <==> n <= |text| && forall i :: 0 <= i < n ==> IsAtomChar(text[i]) && text[i] != EOF
    decreases n
  {
    if n > 0 && text != [] && IsAtomChar(text[0]) && text[0] != EOF {
      FillsAtomIs(text[1..], n - 1);
      if FillsAtom(text, n) {
        assert forall i :: 0 < i < n ==> text[i] == text[1..][i - 1];
      } else if n <= |text| {
        var i :| 0 <= i < n - 1 && !(IsAtomChar(text[1..][i]) && text[1..][i] != EOF);
        assert text[i + 1] == text[1..][i];
      }
    }
  }

  /** Overlong, character by character. */
  lemma OverlongIs(text: seq<int>)
    ensures Overlong(text) <==>
      (SYM_ROOM <= |text| && (forall i :: 0 <= i < SYM_ROOM ==> text[i] != EOF) &&
       forall i :: 0 <= i < |text| ==> IsAtomChar(text[i]))
  {
    AllAtomIs(text);
    FillsAtomIs(text, SYM_ROOM);
  }

  lemma OverlongFirst(text: seq<int>)
    ensures Overlong(text) ==> text != [] && IsAtomChar(text[0]) && text[0] != EOF
  {
  }

  /** The tokenizer loops for ever exactly outside of a string and in front of an endless text. */
  lemma ChompHangs(s: TokState)
    ensures Chomp(s).None? <==> Hangs(s)
  {
    hide Atom, SkipBlank, EndsInComment, Blanks, Overlong, StringChar;
    var p := Primed(s);
    BlankUpcoming(p, false);
    if !p.inString && SkipBlank(p, false).Some? {
      var b := SkipBlank(p, false).value;
      AtomHangs(b);
      OverlongFirst(Upcoming(p)[Blanks(Upcoming(p), false)..]);
      OverlongFirst(Upcoming(b));
      assert Upcoming(b)[0] == b.nextch;
    }
  }

  /** For instance in front of a comment, */
  lemma CommentHangs(rest: seq<int>)
    requires NEWLINE !in rest
    ensures Chomp(TokState([HASH] + rest, EOF, false, TokInit)).None?
  {
    var s := TokState([HASH] + rest, EOF, false, TokInit);
    assert Upcoming(Primed(s)) == [HASH] + rest;
    assert ([HASH] + rest)[1..] == rest;
    CommentGoesOn(rest);
    ChompHangs(s);
  }

  lemma {:induction false} CommentGoesOn(text: seq<int>)
    requires NEWLINE !in text
    ensures EndsInComment(text, true)
  {
    if text != [] {
      CommentGoesOn(text[1..]);
    }
  }

  /** and in front of 32 letters. */
  lemma LettersHang()
    ensures Chomp(TokState(seq(32, _ => 'a' as int), EOF, false, TokInit)).None?
  {
    var text := seq(32, _ => 'a' as int);
    var s := TokState(text, EOF, false, TokInit);
    assert Upcoming(Primed(s)) == text && text[0..] == text;
    assert Blanks(text, false) == 0;
    OverlongIs(text);
    ChompHangs(s);
  }

  // ----- the tokenizer itself

  class Tokenizer {
    var rest: seq<int>
    var nextch: int
    var inString: bool
    var tok: Tok

    ghost function View(): TokState
      reads this
    {
      TokState(rest, nextch, inString, tok)
    }

    constructor (input: seq<int>)
      ensures View() == TokState(input, EOF, false, TokInit)
    {
      rest, nextch, inString, tok := input, EOF, false, TokInit;
    }

    method AdvanceStream()
      modifies this
      ensures View() == Advance(old(View()))
    {
      if rest == [] {
        nextch := EOF;
      } else {
        nextch, rest := rest[0], rest[1..];
      }
    }

    /** token_chomp; hung says that the original never comes back from this call, which is so exactly in front
        of an endless text. */
    method TokenChomp() returns (hung: bool)
      modifies this
      ensures hung <==> Hangs(old(View()))
      ensures hung <==> Chomp(old(View())).None?
      ensures !hung ==> View() == Chomp(old(View())).value
    {
      ChompHangs(View());
      hung := false;
      if nextch == EOF {
        inString := false;
        AdvanceStream();
      }
      if inString {
        ChompString();
        return;
      }
      hung := ChompBlank();
      if hung {
        return;
      }
      if nextch == EOF {
        tok := TokEnd;
      } else if nextch == DQUOTE {
        tok := TokLParen;
        inString := true;
      } else if nextch == LPAREN {
        tok := TokLParen;
      } else if nextch == RPAREN {
        tok := TokRParen;
      } else if nextch == DOT {
        tok := TokDot;
      } else {
        hung := ChompAtom();
        return;
      }
      AdvanceStream();
    }

    method ChompString()
      modifies this
      ensures View() == StringChar(old(View()))
    {
      if nextch == DQUOTE {
        inString := false;
        tok := TokRParen;
        AdvanceStream();
        return;
      }
      if nextch != BACKSLASH {
        tok := TokLit(nextch);
        AdvanceStream();
        return;
      }
      AdvanceStream();
      if nextch == EOF {
        tok := TokLit(BACKSLASH);
        inString := false;
      } else if nextch == 'n' as int {
        tok := TokLit(0xA);
      } else if nextch == 'r' as int {
        tok := TokLit(0xD);
      } else if nextch == 't' as int {
        tok := TokLit(0x9);
      } else if IsOctal(nextch) {
        ChompOctal();
        return;
      } else {
        tok := TokLit(nextch);
      }
      AdvanceStream();
    }

    method ChompOctal()
      requires IsOctal(nextch)
      modifies this
      ensures var (lit, o) := ReadOctal(Advance(old(View())), old(nextch) - '0' as int);
        View() == o.(tok := TokLit(lit))
    {
      var lit := nextch - '0' as int;
      AdvanceStream();
      ghost var start, first := View(), lit;
      while IsOctal(nextch)
        invariant ReadOctal(View(), lit) == ReadOctal(start, first)
        decreases |rest|, if nextch == EOF then 0 else 1
      {
        lit := Wrap(lit * 8 + (nextch - '0' as int));
        AdvanceStream();
      }
      tok := TokLit(lit);
    }

    method ChompBlank() returns (hung: bool)
      modifies this
      ensures hung <==> EndsInComment(Upcoming(old(View())), false)
      ensures hung <==> SkipBlank(old(View()), false).None?
      ensures !hung ==> View() == SkipBlank(old(View()), false).value
    {
      BlankUpcoming(View(), false);
      var inComment := false;
      while true
        invariant SkipBlank(View(), inComment) == SkipBlank(old(View()), false)
        decreases |rest|, if nextch == EOF then 0 else 1
      {
        if nextch == HASH {
          inComment := true;
        } else if nextch == NEWLINE {
          inComment := false;
        }
        if !IsSpace(nextch) && !inComment {
          return false;
        }
        if rest == [] && nextch == EOF {
          return true;
        }
        AdvanceStream();
      }
    }

    method ChompAtom() returns (hung: bool)
      modifies this
      ensures hung <==> Overlong(Upcoming(old(View())))
      ensures hung <==> Atom(old(View())).None?
      ensures !hung ==> View() == Atom(old(View())).value
    {
      AtomHangs(View());
      var buf := [];
      while |buf| < SYM_ROOM && IsAtomChar(nextch) && nextch != EOF
        invariant ReadAtom(View(), buf) == ReadAtom(old(View()), [])
        decreases |rest|, if nextch == EOF then 0 else 1
      {
        buf := buf + [nextch];
        AdvanceStream();
      }
      if |buf| == SYM_ROOM {
        ghost var start := View();
        while IsAtomChar(nextch)
          invariant DiscardAtom(View()) == DiscardAtom(start)
          decreases |rest|, if nextch == EOF then 0 else 1
        {
          if rest == [] && nextch == EOF {
            return true;
          }
          AdvanceStream();
        }
      }
      var value, end := StrtollCustom(buf);
      tok := if end == |buf| then TokLit(value) else TokSym(buf);
      hung := false;
    }
  }
}
