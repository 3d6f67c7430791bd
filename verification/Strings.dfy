/** String shorthand: a string literal reads as the list of its character codes. */
module Strings {
  import opened Options
  import opened Numbers
  import opened Token
  import opened Reader
  import opened Printer
  import opened RoundTrip

  /** One character of a literal as it is written. */
  datatype Item = Plain(c: int) | Newline | Return | Tab | Octal(digits: seq<int>) | Escaped(c: int)

  function Text(i: Item): (s: seq<int>)
  {
    match i
    case Plain(c) => [c]
    case Newline => [BACKSLASH, 'n' as int]
    case Return => [BACKSLASH, 'r' as int]
    case Tab => [BACKSLASH, 't' as int]
    case Octal(ds) => [BACKSLASH] + ds
    case Escaped(c) => [BACKSLASH, c]
  }

  /** The character it stands for. */
  function Code(i: Item): int {
    match i
    case Plain(c) => c
    case Newline => 10
    case Return => 13
    case Tab => 9
    case Octal(ds) => Wrap(Denotes(ds, 8))
    case Escaped(c) => c
  }

  predicate ItemOk(i: Item) {
    match i
    case Plain(c) => c != DQUOTE && c != BACKSLASH && c != EOF
    case Octal(ds) => ds != [] && forall k :: 0 <= k < |ds| ==> IsOctal(ds[k])
    case Escaped(c) => c != 'n' as int && c != 'r' as int && c != 't' as int && !IsOctal(c) && c != EOF
    case _ => true
  }

  /** Items in a row; an octal escape takes all the octal digits there are. */
  predicate ItemsOk(items: seq<Item>) {
    && (forall k :: 0 <= k < |items| ==> ItemOk(items[k]))
    && (forall k, m ::
      0 <= k < |items| && m == k + 1 < |items| && items[k].Octal? ==> !(items[m].Plain? && IsOctal(items[m].c)))
  }

  function TextAll(items: seq<Item>): seq<int> {
    if items == [] then [] else Text(items[0]) + TextAll(items[1..])
  }

  /** The list of the character codes. */
  function CodeList(items: seq<Item>): Tree {
    if items == [] then Nil else Cons(Value(Code(items[0])), CodeList(items[1..]))
  }

  // ----- tokens inside a literal

  function Inside(s: seq<int>, tok: Tok): TokState
    requires s != []
  {
    TokState(s[1..], s[0], true, tok)
  }

  lemma AdvanceInside(c: int, s: seq<int>, tok: Tok)
    requires s != []
    ensures Inside([c] + s, tok).nextch == c && Advance(Inside([c] + s, tok)) == Inside(s, tok)
  {
    assert ([c] + s)[1..] == s;
  }

  lemma {:induction false} ReadOctalAll(ds: seq<int>, s: seq<int>, done: seq<int>, tok: Tok)
    requires s != [] && !IsOctal(s[0])
    requires forall k :: 0 <= k < |ds| ==> IsOctal(ds[k])
    ensures ReadOctal(Inside(ds + s, tok), Wrap(Denotes(done, 8))) == (Wrap(Denotes(done + ds, 8)), Inside(s, tok))
    decreases |ds|
  {
    if ds == [] {
      assert ds + s == s && done + ds == done;
    } else {
      assert ds + s == [ds[0]] + (ds[1..] + s);
      AdvanceInside(ds[0], ds[1..] + s, tok);
      DenotesSnoc(done, ds[0], 8);
      WrapStep(Denotes(done, 8), 8, ds[0] - '0' as int);
      ReadOctalAll(ds[1..], s, done + [ds[0]], tok);
      assert done + [ds[0]] + ds[1..] == done + ds;
    }
  }

  function EscapeCode(c: int): int {
    if c == 'n' as int then 10 else if c == 'r' as int then 13 else if c == 't' as int then 9 else c
  }

  lemma EscapeReads(c: int, s: seq<int>, tok: Tok)
    requires s != [] && c != EOF && !IsOctal(c)
    ensures Chomp(Inside([BACKSLASH, c] + s, tok)) == Some(Inside(s, TokLit(EscapeCode(c))))
  {
    assert [BACKSLASH, c] + s == [BACKSLASH] + ([c] + s);
    AdvanceInside(BACKSLASH, [c] + s, tok);
    AdvanceInside(c, s, TokLit(EscapeCode(c)));
  }

  lemma ItemReads(i: Item, s: seq<int>, tok: Tok)
    requires ItemOk(i) && s != [] && (i.Octal? ==> !IsOctal(s[0]))
    ensures Chomp(Inside(Text(i) + s, tok)) == Some(Inside(s, TokLit(Code(i))))
  {
    match i
    case Plain(c) =>
      AdvanceInside(c, s, TokLit(c));
    case Octal(ds) =>
      OctalReads(ds, s, tok);
    case _ =>
      EscapeReads(Text(i)[1], s, tok);
  }

  lemma OctalStep(d: int, more: seq<int>, tok: Tok, lit: int, after: TokState)
    requires IsOctal(d) && more != [] && ReadOctal(Inside(more, tok), d - '0' as int) == (lit, after)
    ensures Chomp(Inside([BACKSLASH] + ([d] + more), tok)) == Some(after.(tok := TokLit(lit)))
  {
    hide ReadOctal;
    AdvanceInside(BACKSLASH, [d] + more, tok);
    AdvanceInside(d, more, tok);
  }

  lemma OneDigit(d: int)
    requires IsOctal(d)
    ensures Denotes([d], 8) == d - '0' as int
  {
    DenotesSnoc([], d, 8);
    assert [] + [d] == [d];
  }

  lemma OctalReads(ds: seq<int>, s: seq<int>, tok: Tok)
    requires ItemOk(Octal(ds)) && s != [] && !IsOctal(s[0])
    ensures Chomp(Inside([BACKSLASH] + ds + s, tok)) == Some(Inside(s, TokLit(Wrap(Denotes(ds, 8)))))
  {
    hide ReadOctal, Denotes, Chomp, Inside;
    var more := ds[1..] + s;
    OneDigit(ds[0]);
    ReadOctalAll(ds[1..], s, [ds[0]], tok);
    assert [ds[0]] + ds[1..] == ds;
    assert [BACKSLASH] + ds + s == [BACKSLASH] + ([ds[0]] + more);
    OctalStep(ds[0], more, tok, Wrap(Denotes(ds, 8)), Inside(s, tok));
    InsideTok(s, tok, TokLit(Wrap(Denotes(ds, 8))));
  }

  lemma InsideTok(s: seq<int>, tok: Tok, t: Tok)
    requires s != []
    ensures Inside(s, tok).(tok := t) == Inside(s, t)
  {
  }

  lemma EndReads(suffix: seq<int>, tok: Tok)
    ensures Chomp(Inside([DQUOTE] + suffix, tok)) == Some(Behind(suffix, TokRParen))
  {
    assert ([DQUOTE] + suffix)[1..] == suffix;
  }

  // ----- the literal as a whole

  lemma {:induction false} ItemsRead(items: seq<Item>, suffix: seq<int>, tok: Tok)
    requires ItemsOk(items) && Clean(TextAll(items)) && Clean(suffix)
    ensures Chomp(Inside(TextAll(items) + ([DQUOTE] + suffix), tok)).Some?
    ensures ParseList(Chomp(Inside(TextAll(items) + ([DQUOTE] + suffix), tok)).value)
         == Parsed(PARSE_OK, CodeList(items), Behind(suffix, TokRParen))
    decreases |items|
  {
    hide Chomp, ItemsOk, Clean;
    var quote := [DQUOTE] + suffix;
    if items == [] {
      assert TextAll(items) + quote == quote;
      EndReads(suffix, tok);
    } else {
      FirstItemReads(items, suffix, tok);
      var lit := TokLit(Code(items[0]));
      ItemsRead(items[1..], suffix, lit);
      InsideLeft(items[1..], suffix, lit);
    }
  }

  lemma FirstItemReads(items: seq<Item>, suffix: seq<int>, tok: Tok)
    requires items != [] && ItemsOk(items) && Clean(TextAll(items))
    ensures var s := TextAll(items[1..]) + ([DQUOTE] + suffix);
      Chomp(Inside(TextAll(items) + ([DQUOTE] + suffix), tok)) == Some(Inside(s, TokLit(Code(items[0]))))
    ensures ItemsOk(items[1..]) && Clean(TextAll(items[1..]))
  {
    Assoc(Text(items[0]), TextAll(items[1..]), [DQUOTE] + suffix);
    TextStarts(items, suffix);
    ItemReads(items[0], TextAll(items[1..]) + ([DQUOTE] + suffix), tok);
  }

  /** What follows an item: the next one, or the closing quote. */
  lemma TextStarts(items: seq<Item>, suffix: seq<int>)
    requires items != [] && ItemsOk(items)
    ensures var s := TextAll(items[1..]) + ([DQUOTE] + suffix);
      s != [] && (items[0].Octal? ==> !IsOctal(s[0]))
  {
    if |items| > 1 {
      var i := items[1];
      assert items[1..][0] == i && ItemOk(i);
      assert Text(i)[0] == if i.Plain? then i.c else BACKSLASH;
    }
  }

  /** Each item consumes input. */
  lemma InsideLeft(items: seq<Item>, suffix: seq<int>, tok: Tok)
    requires ItemsOk(items) && Clean(TextAll(items)) && Clean(suffix)
    ensures var s := TextAll(items) + ([DQUOTE] + suffix);
      Chomp(Inside(s, tok)).Some? && Left(Inside(s, tok)) == |s| && Left(Chomp(Inside(s, tok)).value) < |s|
  {
    var quote := [DQUOTE] + suffix;
    var s := TextAll(items) + quote;
    assert s[0] in s && Clean(s);
    if items == [] {
      assert s == quote;
      EndReads(suffix, tok);
      LeftBehind(suffix, TokRParen);
    } else {
      var t := TextAll(items[1..]) + quote;
      Assoc(Text(items[0]), TextAll(items[1..]), quote);
      TextStarts(items, suffix);
      ItemReads(items[0], t, tok);
      assert s == Text(items[0]) + t && |Text(items[0])| > 0;
    }
  }

  /** The opening quote is a parenthesis, and switches to string mode. */
  lemma OpensLiteral(body: seq<int>)
    requires body != []
    ensures Lex([DQUOTE] + body) == Some(Inside(body, TokLParen))
  {
    assert ([DQUOTE] + body)[1..] == body;
  }

  /** The token behind the opening quote. */
  lemma LiteralStarts(items: seq<Item>, suffix: seq<int>)
    requires ItemsOk(items) && Clean(TextAll(items))
    ensures var c := Chomp(Inside(TextAll(items) + ([DQUOTE] + suffix), TokLParen));
      c.Some? && if items == [] then c.value == Behind(suffix, TokRParen) else c.value.tok.TokLit?
  {
    if items == [] {
      assert TextAll(items) + ([DQUOTE] + suffix) == [DQUOTE] + suffix;
      EndReads(suffix, TokLParen);
    } else {
      FirstItemReads(items, suffix, TokLParen);
    }
  }

  /** A string literal reads as the list of its codes, and the reader moves on behind the closing quote. */
  lemma LiteralReads(items: seq<Item>, suffix: seq<int>)
    requires ItemsOk(items) && Clean(TextAll(items)) && Clean(suffix) && Lex(suffix).Some?
    ensures ParsesTo([DQUOTE] + (TextAll(items) + ([DQUOTE] + suffix)), CodeList(items), suffix)
  {
    hide Chomp, ParseList, ItemsOk, Clean, Lex;
    var body := TextAll(items) + ([DQUOTE] + suffix);
    OpensLiteral(body);
    LexIgnoresTok(suffix, TokRParen);
    InsideLeft(items, suffix, TokLParen);
    ItemsRead(items, suffix, TokLParen);
    LiteralStarts(items, suffix);
  }

  // ----- every terminated literal is made of items

  /** The text has no quote of its own and does not end in the middle of an escape. */
  predicate Closed(body: seq<int>) {
    body == [] ||
    (if body[0] == BACKSLASH then |body| >= 2 && Closed(body[2..]) else body[0] != DQUOTE && Closed(body[1..]))
  }

  function OctalRun(s: seq<int>): (n: nat)
    ensures n <= |s| && (forall k :: 0 <= k < n ==> IsOctal(s[k])) && (n < |s| ==> !IsOctal(s[n]))
  {
    if s != [] && IsOctal(s[0]) then OctalRun(s[1..]) + 1 else 0
  }

  lemma {:induction false} ClosedBehindOctal(s: seq<int>, n: nat)
    requires Closed(s) && n <= |s| && forall k :: 0 <= k < n ==> IsOctal(s[k])
    ensures Closed(s[n..])
    decreases n
  {
    if n > 0 {
      ClosedBehindOctal(s[1..], n - 1);
      assert s[1..][n - 1..] == s[n..];
    } else {
      assert s[0..] == s;
    }
  }

  lemma ItemsCons(i: Item, items: seq<Item>)
    requires ItemOk(i) && ItemsOk(items)
    requires i.Octal? && items != [] ==> !(items[0].Plain? && IsOctal(items[0].c))
    ensures ItemsOk([i] + items) && TextAll([i] + items) == Text(i) + TextAll(items)
  {
    var all := [i] + items;
    assert all[1..] == items;
    assert forall k :: 1 <= k < |all| ==> all[k] == items[k - 1];
  }

  /** The items of a terminated literal. */
  function Items(body: seq<int>): (items: seq<Item>)
    requires Closed(body) && Clean(body)
    ensures ItemsOk(items) && TextAll(items) == body
    ensures items != [] && items[0].Plain? ==> body != [] && body[0] == items[0].c
    decreases |body|
  {
    if body == [] then []
    else if body[0] != BACKSLASH then
      PlainFirst(body);
      var items := Items(body[1..]);
      ItemsCons(Plain(body[0]), items);
      [Plain(body[0])] + items
    else if IsOctal(body[1]) then
      var n := OctalRun(body[1..]);
      OctalFirst(body, n);
      var items := Items(body[n + 1..]);
      ItemsCons(Octal(body[1..n + 1]), items);
      [Octal(body[1..n + 1])] + items
    else
      EscapeFirst(body);
      var items := Items(body[2..]);
      ItemsCons(EscapeItem(body[1]), items);
      [EscapeItem(body[1])] + items
  }

  function EscapeItem(c: int): Item {
    if c == 'n' as int then Newline else if c == 'r' as int then Return else if c == 't' as int then Tab else Escaped(c)
  }

  lemma PlainFirst(body: seq<int>)
    requires Closed(body) && Clean(body) && body != [] && body[0] != BACKSLASH
    ensures Closed(body[1..]) && Clean(body[1..]) && ItemOk(Plain(body[0])) && body == [body[0]] + body[1..]
  {
    assert body[0] in body;
  }

  lemma EscapeFirst(body: seq<int>)
    requires Closed(body) && Clean(body) && body != [] && body[0] == BACKSLASH && !IsOctal(body[1])
    ensures Closed(body[2..]) && Clean(body[2..]) && ItemOk(EscapeItem(body[1]))
    ensures body == Text(EscapeItem(body[1])) + body[2..]
  {
    assert body[1] in body;
    assert body == [body[0], body[1]] + body[2..];
  }

  /** The text behind the backslash of an octal escape. */
  lemma ClosedDigits(body: seq<int>)
    requires Closed(body) && body != [] && body[0] == BACKSLASH && IsOctal(body[1])
    ensures Closed(body[1..])
  {
    assert body[2..] == body[1..][1..];
  }

  lemma CleanTail(body: seq<int>, k: nat)
    requires Clean(body) && k <= |body|
    ensures Clean(body[k..])
  {
  }

  lemma OctalFirst(body: seq<int>, n: nat)
    requires Closed(body) && Clean(body) && |body| > 1 && body[0] == BACKSLASH && IsOctal(body[1])
    requires n == OctalRun(body[1..])
    ensures 0 < n < |body| && Closed(body[n + 1..]) && Clean(body[n + 1..]) && ItemOk(Octal(body[1..n + 1]))
    ensures body == Text(Octal(body[1..n + 1])) + body[n + 1..]
    ensures body[n + 1..] != [] ==> !IsOctal(body[n + 1..][0])
  {
    hide Closed, Clean, OctalRun, IsOctal;
    var s := body[1..];
    ClosedDigits(body);
    ClosedBehindOctal(s, n);
    CleanTail(body, n + 1);
    assert s[0] == body[1] && s[n..] == body[n + 1..] && s[..n] == body[1..n + 1];
    assert body == [body[0]] + s[..n] + s[n..];
  }

  /** Characters are 64-bit numbers. */
  predicate CodesFit(items: seq<Item>) {
    forall k :: 0 <= k < |items| ==> -I64 <= Code(items[k]) < I64
  }

  predicate NoNegativeCode(items: seq<Item>) {
    forall k :: 0 <= k < |items| ==> Code(items[k]) >= 0
  }

  lemma {:induction false} CodeListSurvives(items: seq<Item>)
    ensures Shaped(CodeList(items)) <==> CodesFit(items)
    ensures Survives(CodeList(items)) <==> NoNegativeCode(items)
  {
    if items != [] {
      CodeListSurvives(items[1..]);
    }
  }

  /** Every terminated literal reads as the list of its decoded characters. The parenthesised list of those codes
      reads the same just if none of them is negative, as characters outside of ASCII are. */
  lemma LiteralIsCodeList(body: seq<int>, suffix: seq<int>)
    requires Closed(body) && Clean(body) && Clean(suffix) && Lex(suffix).Some?
    ensures ParsesTo([DQUOTE] + (body + ([DQUOTE] + suffix)), CodeList(Items(body)), suffix)
    ensures CodesFit(Items(body)) ==>
      (ParsesTo(Pretty(CodeList(Items(body))) + suffix, CodeList(Items(body)), suffix) <==> NoNegativeCode(Items(body)))
  {
    LiteralReads(Items(body), suffix);
    CodeListSurvives(Items(body));
    if CodesFit(Items(body)) {
      PrintThenRead(CodeList(Items(body)), suffix);
    }
  }
}
