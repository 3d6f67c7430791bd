/** What texts mean to the tokenizer: laws that speak of characters by their codes. */
module Lexing {
  import opened Options
  import opened Numbers
  import opened Token
  import opened RoundTrip
  import opened Divergence

  function Codes(s: string): (r: seq<int>)
    ensures |r| == |s| && forall i :: 0 <= i < |s| ==> r[i] == s[i] as int
  {
    seq(|s|, i requires 0 <= i < |s| => s[i] as int)
  }

  // ----- characters

  /** Tab, line feed, vertical tab, form feed, carriage return and space. */
  const BLANKS: set<int> := {9, 10, 11, 12, 13, 32}

  /** Blanks, parentheses, the dot and the quote end a name. */
  const ENDS: set<int> := {9, 10, 11, 12, 13, 32, 40, 41, 46, 39}

  /** A name, or a number, of any length: its first character begins neither a comment nor a string. */
  predicate IsName(name: seq<int>) {
    && name != [] && (forall i :: 0 <= i < |name| ==> name[i] !in ENDS && name[i] != -1)
    && name[0] != 35 && name[0] != 34
  }

  lemma CharClasses(c: int)
    ensures IsSpace(c) <==> c in BLANKS
    ensures IsAtomChar(c) <==> c !in ENDS
    ensures IsOctal(c) <==> c in {48, 49, 50, 51, 52, 53, 54, 55}
  {
  }

  // ----- blanks and comments

  predicate AllBlank(s: seq<int>) {
    forall i :: 0 <= i < |s| ==> s[i] in BLANKS
  }

  lemma {:induction false} SkipsBlanks(bs: seq<int>, s: seq<int>, tok: Tok)
    requires AllBlank(bs)
    ensures SkipBlank(Behind(bs + s, tok), false) == SkipBlank(Behind(s, tok), false)
    decreases |bs|
  {
    if bs == [] {
      assert bs + s == s;
    } else {
      assert bs + s == [bs[0]] + (bs[1..] + s);
      CharClasses(bs[0]);
      AdvanceBehind(bs[0], bs[1..] + s, tok);
      SkipsBlanks(bs[1..], s, tok);
    }
  }

  /** Blanks in front of a text change nothing. */
  lemma BlanksLaw(bs: seq<int>, s: seq<int>, tok: Tok)
    requires AllBlank(bs) && Clean(s)
    ensures Chomp(Behind(bs + s, tok)) == Lex(s)
  {
    if bs == [] {
      assert bs + s == s;
    } else {
      assert (bs + s)[0] == bs[0];
      assert s != [] ==> s[0] in s;
      SkipsBlanks(bs, s, tok);
      assert Chomp(Behind(bs + s, tok)) == Chomp(Behind(s, tok)) by {
        hide PlainToken, SkipBlank;
      }
    }
    LexIgnoresTok(s, tok);
  }

  lemma {:induction false} SkipsComment(cs: seq<int>, s: seq<int>, tok: Tok)
    requires 10 !in cs
    ensures SkipBlank(Behind(cs + [10] + s, tok), true) == SkipBlank(Behind(s, tok), false)
    decreases |cs|
  {
    if cs == [] {
      assert cs + [10] + s == [10] + s;
      AdvanceBehind(10, s, tok);
    } else {
      assert cs + [10] + s == [cs[0]] + (cs[1..] + [10] + s);
      AdvanceBehind(cs[0], cs[1..] + [10] + s, tok);
      SkipsComment(cs[1..], s, tok);
    }
  }

  /** So does a comment: from a number sign up to the end of the line. */
  lemma CommentLaw(cs: seq<int>, s: seq<int>, tok: Tok)
    requires 10 !in cs && Clean(s)
    ensures Chomp(Behind([35] + cs + [10] + s, tok)) == Lex(s)
  {
    var text := [35] + cs + [10] + s;
    assert text == [35] + (cs + [10] + s);
    AdvanceBehind(35, cs + [10] + s, tok);
    SkipsComment(cs, s, tok);
    assert s != [] ==> s[0] in s;
    hide PlainToken;
    assert Chomp(Behind(text, tok)) == Chomp(Behind(s, tok));
    LexIgnoresTok(s, tok);
  }

  // ----- names

  /** How many more characters of a name there is room for. */
  function Room(name: seq<int>, buf: seq<int>): nat
    requires |buf| <= 32
  {
    if |buf| + |name| <= 32 then |name| else 32 - |buf|
  }

  lemma {:induction false} ReadsName(name: seq<int>, s: seq<int>, buf: seq<int>, tok: Tok)
    requires forall i :: 0 <= i < |name| ==> name[i] !in ENDS && name[i] != -1
    requires |buf| <= 32 && (s == [] || s[0] in ENDS)
    ensures var n := Room(name, buf);
      ReadAtom(Behind(name + s, tok), buf) == (buf + name[..n], Behind(name[n..] + s, tok))
    decreases |name|
  {
    if name == [] {
      assert name + s == s && buf + name[..0] == buf;
      if s != [] {
        CharClasses(s[0]);
      }
    } else {
      CharClasses(name[0]);
      assert name + s == [name[0]] + (name[1..] + s);
      AdvanceBehind(name[0], name[1..] + s, tok);
      if |buf| < 32 {
        ReadsName(name[1..], s, buf + [name[0]], tok);
        OneMore(name, buf, Room(name, buf));
      } else {
        assert buf + name[..0] == buf && name[0..] == name;
      }
    }
  }

  lemma OneMore(name: seq<int>, buf: seq<int>, n: nat)
    requires 0 < n <= |name|
    ensures buf + [name[0]] + name[1..][..n - 1] == buf + name[..n] && name[1..][n - 1..] == name[n..]
  {
  }

  lemma {:induction false} DiscardsName(name: seq<int>, s: seq<int>, tok: Tok)
    requires forall i :: 0 <= i < |name| ==> name[i] !in ENDS && name[i] != -1
    requires s != [] && s[0] in ENDS
    ensures DiscardAtom(Behind(name + s, tok)) == Some(Behind(s, tok))
    decreases |name|
  {
    if name == [] {
      assert name + s == s;
      CharClasses(s[0]);
    } else {
      CharClasses(name[0]);
      assert name + s == [name[0]] + (name[1..] + s);
      AdvanceBehind(name[0], name[1..] + s, tok);
      DiscardsName(name[1..], s, tok);
    }
  }

  /** What the characters of a name, or the first 32 of them, make: a number if strtoll_custom takes all of them. */
  function NameToken(name: seq<int>): Tok {
    var buf := if |name| <= 32 then name else name[..32];
    var n := Strtoll(buf);
    if n.end == |buf| then TokLit(n.value) else TokSym(buf)
  }

  lemma AtomOfName(name: seq<int>, s: seq<int>, tok: Tok)
    requires IsName(name) && s != [] && s[0] in ENDS
    ensures Atom(Behind(name + s, tok)) == Some(Behind(s, NameToken(name)))
  {
    hide ReadAtom, DiscardAtom, Strtoll, IsName;
    var n := if |name| <= 32 then |name| else 32;
    NameSplits(name, s, tok, n);
    if |name| >= 32 {
      DiscardsName(name[n..], s, tok);
    }
  }

  lemma NameSplits(name: seq<int>, s: seq<int>, tok: Tok, n: nat)
    requires IsName(name) && s != [] && s[0] in ENDS && n == if |name| <= 32 then |name| else 32
    ensures ReadAtom(Behind(name + s, tok), []) == (name[..n], Behind(name[n..] + s, tok))
    ensures forall i :: 0 <= i < |name[n..]| ==> name[n..][i] !in ENDS && name[n..][i] != -1
    ensures |name| <= 32 ==> name[n..] + s == s && name[..n] == name
  {
    ReadsName(name, s, [], tok);
    assert [] + name[..n] == name[..n];
  }

  /** A name in front of a character that ends it is one token, and this character comes next. */
  lemma NameLaw(name: seq<int>, s: seq<int>, tok: Tok)
    requires IsName(name) && s != [] && s[0] in ENDS
    ensures Chomp(Behind(name + s, tok)) == Some(Behind(s, NameToken(name)))
  {
    assert (name + s)[0] == name[0] && name[0] !in ENDS;
    CharClasses(name[0]);
    AtomOfName(name, s, tok);
    hide Atom, StringChar, NameToken;
  }

  /** At the end of the text, a name of less than 32 characters is one token too. */
  lemma LastNameLaw(name: seq<int>, tok: Tok)
    requires IsName(name) && |name| < 32
    ensures Chomp(Behind(name, tok)) == Some(Behind([], NameToken(name)))
  {
    assert name[0] !in ENDS;
    CharClasses(name[0]);
    ReadsName(name, [], [], tok);
    assert name + [] == name && [] + name[..|name|] == name && name[|name|..] + [] == [];
    hide ReadAtom, DiscardAtom, Strtoll, StringChar;
    assert Atom(Behind(name, tok)) == Some(Behind([], tok).(tok := AtomTok(name)));
  }

  /** A number as strtoll_custom takes it, of at most 32 characters, is a literal with its value. */
  lemma NumberLaw(sign: seq<int>, base: nat, ds: seq<int>)
    requires IsNumeral(sign, base, ds, []) && |sign| + |BasePrefix(base)| + |ds| <= 32
    ensures var v := Denotes(ds, base);
      NameToken(sign + BasePrefix(base) + ds) == TokLit(Wrap(if sign == ['-' as int] then -v else v))
  {
    NumeralReads(sign, base, ds, []);
    hide Strtoll, Wrap, Denotes, BasePrefix, IsNumeral;
    var name := sign + BasePrefix(base) + ds;
    assert name + [] == name;
  }

  // ----- the other tokens

  /** Parentheses and dots are tokens of their own; a double quote is the parenthesis that opens a list of
      characters; behind the text is the end of input. */
  lemma MarkLaw(s: seq<int>, tok: Tok)
    ensures Chomp(Behind([40] + s, tok)) == Some(Behind(s, TokLParen))
    ensures Chomp(Behind([41] + s, tok)) == Some(Behind(s, TokRParen))
    ensures Chomp(Behind([46] + s, tok)) == Some(Behind(s, TokDot))
    ensures Chomp(Behind([34] + s, tok)) == Some(Behind(s, TokLParen).(inString := true))
    ensures Chomp(Behind([], tok)) == Some(Behind([], TokEnd))
  {
    OneMark(40, s, tok);
    OneMark(41, s, tok);
    OneMark(46, s, tok);
    OneMark(34, s, tok);
  }

  lemma OneMark(c: int, s: seq<int>, tok: Tok)
    requires c in {40, 41, 46, 34}
    ensures Chomp(Behind([c] + s, tok)) == Some(Advance(Behind([c] + s, tok)).(
      tok := if c == 41 then TokRParen else if c == 46 then TokDot else TokLParen, inString := c == 34))
    ensures Advance(Behind([c] + s, tok)) == Behind(s, tok)
  {
    hide Atom, StringChar;
    AdvanceBehind(c, s, tok);
    assert SkipBlank(Behind([c] + s, tok), false) == Some(Behind([c] + s, tok));
  }

  /** A string that is not closed ends with the input, also within an escape. */
  lemma UnclosedLaw(tok: Tok)
    ensures Chomp(TokState([], -1, true, tok)) == Some(TokState([], -1, false, TokEnd))
    ensures Chomp(TokState([], 92, true, tok)) == Some(TokState([], -1, false, TokLit(92)))
  {
  }

  // ----- texts of names

  /** Gaps and names in turn, and then the rest. */
  function Spread(gaps: seq<seq<int>>, names: seq<seq<int>>, s: seq<int>): seq<int>
    requires |gaps| == |names|
    decreases |names|
  {
    if names == [] then s else gaps[0] + (names[0] + Spread(gaps[1..], names[1..], s))
  }

  predicate IsGap(gap: seq<int>) {
    gap != [] && AllBlank(gap)
  }

  /** Names that are set apart by blanks, whichever and how many, are read one after the other. */
  lemma {:induction false} NamesLaw(gaps: seq<seq<int>>, names: seq<seq<int>>, s: seq<int>, tok: Tok, k: nat)
    requires |gaps| == |names| && (forall i :: 0 <= i < |gaps| ==> IsGap(gaps[i]) && IsName(names[i]))
    requires Clean(s) && s != [] && s[0] in ENDS && k < |names|
    ensures var n := Nth(Behind(Spread(gaps, names, s), tok), k + 1);
      n.Some? && n.value.tok == NameToken(names[k])
    decreases k
  {
    var more := Spread(gaps[1..], names[1..], s);
    SpreadStarts(gaps[1..], names[1..], s);
    SpreadClean(gaps[1..], names[1..], s);
    assert Clean(names[0] + more);
    BlanksLaw(gaps[0], names[0] + more, tok);
    NameLaw(names[0], more, TokInit);
    var b := Behind(Spread(gaps, names, s), tok);
    var c := Behind(more, NameToken(names[0]));
    assert Chomp(b) == Some(c);
    hide Chomp, NameToken;
    if k == 0 {
      assert Nth(c, 0) == Some(c);
    } else {
      NamesLaw(gaps[1..], names[1..], s, NameToken(names[0]), k - 1);
      assert names[1..][k - 1] == names[k];
    }
  }

  lemma SpreadStarts(gaps: seq<seq<int>>, names: seq<seq<int>>, s: seq<int>)
    requires |gaps| == |names| && (forall i :: 0 <= i < |gaps| ==> IsGap(gaps[i]) && IsName(names[i]))
    requires s != [] && s[0] in ENDS
    ensures Spread(gaps, names, s) != [] && Spread(gaps, names, s)[0] in ENDS
  {
    if names != [] {
      assert gaps[0][0] in BLANKS;
    }
  }

  lemma {:induction false} SpreadClean(gaps: seq<seq<int>>, names: seq<seq<int>>, s: seq<int>)
    requires |gaps| == |names| && (forall i :: 0 <= i < |gaps| ==> IsGap(gaps[i]) && IsName(names[i])) && Clean(s)
    ensures Clean(Spread(gaps, names, s))
    decreases |names|
  {
    if names != [] {
      SpreadClean(gaps[1..], names[1..], s);
      assert -1 !in gaps[0] && -1 !in names[0];
    }
  }
}
