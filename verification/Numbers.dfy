/** Number formatting and parsing. Characters are C's signed chars, as integers; 0 ends a string. */
module Numbers {

  const MINUS := '-' as int
  const PLUS := '+' as int
  const ZERO := '0' as int

  function CharToNum(c: int): int {
    if '0' as int <= c <= '9' as int then c - '0' as int
    else if 'A' as int <= c <= 'Z' as int then c - 'A' as int + 10
    else if 'a' as int <= c <= 'z' as int then c - 'a' as int + 10
    else -1
  }

  /** The argument is unsigned: a negative remainder arrives as a huge number and gives no digit. */
  function NumToChar(n: int): int {
    if 0 <= n < 10 then '0' as int + n
    else if 10 <= n < 36 then 'a' as int + n - 10
    else 0
  }

  lemma DigitRoundTrip(n: nat)
    requires n < 36
    ensures CharToNum(NumToChar(n)) == n
  {
  }

  // ----- positional notation

  /** The value that a string of digits denotes, most significant digit first. */
  function Denotes(s: seq<int>, base: nat): int {
    if s == [] then 0 else Denotes(s[..|s| - 1], base) * base + CharToNum(s[|s| - 1])
  }

  lemma DivMod(v: nat, base: nat)
    requires base > 1
    ensures v == base * (v / base) + v % base
  {
  }

  lemma Recombine(v: nat, base: nat)
    requires base > 1
    ensures (v / base) * base + v % base == v
  {
    DivMod(v, base);
  }

  lemma TwiceAtMost(q: nat, base: nat)
    requires base > 1
    ensures 2 * q <= base * q
  {
  }

  lemma DivShrinks(v: nat, base: nat)
    requires base > 1
    ensures 0 <= v / base && (v > 0 ==> v / base < v)
    ensures 0 <= v % base < base
  {
    DivMod(v, base);
    TwiceAtMost(v / base, base);
  }

  /** The digits of v, least significant first; none for 0. */
  function LowDigits(v: nat, base: nat): (r: seq<int>)
    requires base > 1
  {
    if v == 0 then [] else
      DivShrinks(v, base);
      [NumToChar(v % base)] + LowDigits(v / base, base)
  }

  function Reversed(s: seq<int>): (r: seq<int>)
    ensures |r| == |s| && forall i :: 0 <= i < |s| ==> r[i] == s[|s| - 1 - i]
  {
    if s == [] then [] else Reversed(s[1..]) + [s[0]]
  }

  /** What the formatters write before the terminator. */
  function Digits(v: nat, base: nat): seq<int>
    requires base > 1
  {
    if v == 0 then [ZERO] else Reversed(LowDigits(v, base))
  }

  predicate AllDigits(s: seq<int>, base: nat) {
    forall i :: 0 <= i < |s| ==> 0 <= CharToNum(s[i]) < base
  }

  lemma ReversedCons(d: int, low: seq<int>)
    ensures Reversed([d] + low) == Reversed(low) + [d]
  {
    assert ([d] + low)[1..] == low;
  }

  lemma DenotesSnoc(s: seq<int>, d: int, base: nat)
    ensures Denotes(s + [d], base) == Denotes(s, base) * base + CharToNum(d)
  {
    assert (s + [d])[..|s|] == s;
  }

  lemma LowDigitsStep(v: nat, base: nat, q: nat)
    requires 1 < base <= 36 && v > 0 && q == v / base
    ensures Denotes(Reversed(LowDigits(v, base)), base) == Denotes(Reversed(LowDigits(q, base)), base) * base + v % base
  {
    DivShrinks(v, base);
    var low := LowDigits(q, base);
    DigitRoundTrip(v % base);
    ReversedCons(NumToChar(v % base), low);
    DenotesSnoc(Reversed(low), NumToChar(v % base), base);
  }

  lemma {:induction false} LowDigitsDenote(v: nat, base: nat)
    requires 1 < base <= 36
    ensures Denotes(Reversed(LowDigits(v, base)), base) == v
  {
    if v > 0 {
      DivShrinks(v, base);
      LowDigitsDenote(v / base, base);
      LowDigitsStep(v, base, v / base);
      Recombine(v, base);
    }
  }

  lemma {:induction false} LowDigitsAreDigits(v: nat, base: nat)
    requires 1 < base <= 36
    ensures AllDigits(LowDigits(v, base), base)
    ensures v > 0 ==> LowDigits(v, base) != [] && CharToNum(LowDigits(v, base)[|LowDigits(v, base)| - 1]) > 0
  {
    if v > 0 {
      DivMod(v, base);
      DivShrinks(v, base);
      LowDigitsAreDigits(v / base, base);
      DigitRoundTrip(v % base);
    }
  }

  /** The digits are digits, they denote the number, and there is no leading zero but for zero itself. */
  lemma DigitsDenote(v: nat, base: nat)
    requires 1 < base <= 36
    ensures Digits(v, base) != [] && AllDigits(Digits(v, base), base)
    ensures Denotes(Digits(v, base), base) == v
    ensures Digits(v, base)[0] == ZERO ==> v == 0
  {
    if v == 0 {
      assert Digits(v, base)[..0] == [];
    } else {
      LowDigitsDenote(v, base);
      LowDigitsAreDigits(v, base);
    }
  }

  function Pow(b: nat, e: nat): nat {
    if e == 0 then 1 else b * Pow(b, e - 1)
  }

  lemma {:induction false} LowDigitsBound(v: nat, base: nat, k: nat)
    requires base > 1 && v < Pow(base, k)
    ensures |LowDigits(v, base)| <= k
    decreases k
  {
    if v > 0 {
      assert k > 0;
      DivMod(v, base);
      DivShrinks(v, base);
      if v / base >= Pow(base, k - 1) {
        MulMono(Pow(base, k - 1), v / base, base);
        assert false;
      }
      LowDigitsBound(v / base, base, k - 1);
    }
  }

  lemma MulMono(a: nat, b: nat, c: nat)
    requires a <= b
    ensures c * a <= c * b
  {
  }

  const U64 := 0x1_0000_0000_0000_0000
  const I64 := 0x8000_0000_0000_0000

  lemma Bounds64()
    ensures U64 <= Pow(10, 20) && U64 == Pow(16, 16) && I64 <= Pow(10, 19)
  {
    assert Pow(10, 5) == 100000;
    assert Pow(10, 10) == 10000000000 by { assert Pow(10, 6) == 1000000; assert Pow(10, 8) == 100000000; }
    assert Pow(10, 15) == 1000000000000000 by { assert Pow(10, 12) == 1000000000000; }
    assert Pow(10, 17) == 100000000000000000;
    assert Pow(10, 19) == 10000000000000000000;
    assert Pow(10, 20) == 100000000000000000000;
    assert Pow(16, 4) == 0x10000;
    assert Pow(16, 8) == 0x1_0000_0000 by { assert Pow(16, 6) == 0x1000000; }
    assert Pow(16, 12) == 0x1_0000_0000_0000 by { assert Pow(16, 10) == 0x100_0000_0000; }
    assert Pow(16, 14) == 0x100_0000_0000_0000;
  }

  // ----- formatting into a buffer

  /** str_rev: reverse the characters before limit in place. */
  method StrRev(buf: array<int>, limit: nat)
    requires 0 < limit <= buf.Length
    modifies buf
    ensures buf[..limit] == Reversed(old(buf[..limit]))
    ensures forall i :: limit <= i < buf.Length ==> buf[i] == old(buf[i])
  {
    var start, last := 0, limit - 1;
    while start < last
      invariant 0 <= start <= last + 1 <= limit && start + last == limit - 1
      invariant forall i :: 0 <= i < start ==> buf[i] == old(buf[limit - 1 - i]) && buf[limit - 1 - i] == old(buf[i])
      invariant forall i :: start <= i <= last ==> buf[i] == old(buf[i])
      invariant forall i :: limit <= i < buf.Length ==> buf[i] == old(buf[i])
    {
      var temp := buf[start];
      buf[start] := buf[last];
      buf[last] := temp;
      start := start + 1;
      last := last - 1;
    }
  }

  /** The buffer holds the string s: its characters, none of them 0, and a terminator. */
  ghost predicate HoldsString(buf: seq<int>, s: seq<int>) {
    |s| < |buf| && buf[..|s|] == s && buf[|s|] == 0 && 0 !in s
  }

  lemma DigitsNotNul(s: seq<int>, base: nat)
    requires AllDigits(s, base)
    ensures 0 !in s
  {
  }

  /** The loop both unsigned formatters share: the terminator, then the digits from the lowest up. */
  method PutLowDigits(buf: array<int>, val: nat, base: nat) returns (cursor: nat)
    requires 1 < base <= 36 && val > 0 && buf.Length > |LowDigits(val, base)|
    modifies buf
    ensures cursor == |LowDigits(val, base)| + 1 && buf[..cursor] == [0] + LowDigits(val, base)
    ensures forall i :: cursor <= i < buf.Length ==> buf[i] == old(buf[i])
  {
    buf[0] := 0;
    cursor := 1;
    var v: nat := val;
    while v > 0
      invariant 0 < cursor && cursor + |LowDigits(v, base)| == |LowDigits(val, base)| + 1
      invariant buf[..cursor] + LowDigits(v, base) == [0] + LowDigits(val, base)
      invariant forall i :: cursor <= i < buf.Length ==> buf[i] == old(buf[i])
    {
      PutStep(buf[..cursor], v, base);
      DivShrinks(v, base);
      buf[cursor] := NumToChar(v % base);
      assert buf[..cursor + 1] == buf[..cursor] + [NumToChar(v % base)];
      v := v / base;
      cursor := cursor + 1;
    }
  }

  lemma PutStep(done: seq<int>, v: nat, base: nat)
    requires base > 1 && v > 0
    ensures 0 <= v / base && |LowDigits(v, base)| == |LowDigits(v / base, base)| + 1
    ensures done + LowDigits(v, base) == done + [NumToChar(v % base)] + LowDigits(v / base, base)
  {
    DivShrinks(v, base);
  }

  /** After reversal a terminator and then text backwards read as the text. */
  lemma ReversedHolds(buf: seq<int>, low: seq<int>, text: seq<int>)
    requires |low| < |buf| && buf[..|low| + 1] == Reversed([0] + low) && text == Reversed(low) && 0 !in text
    ensures HoldsString(buf, text)
  {
    ReversedCons(0, low);
    assert buf[..|text|] == buf[..|low| + 1][..|text|];
    assert buf[|text|] == buf[..|low| + 1][|text|];
  }

  /** What the formatters put behind the terminator, least significant digit first. */
  function LowText(val: nat, base: nat): seq<int>
    requires base > 1
  {
    if val > 0 then LowDigits(val, base) else [ZERO]
  }

  lemma LowTextReversed(val: nat, base: nat)
    requires 1 < base <= 36
    ensures Reversed(LowText(val, base)) == Digits(val, base) && 0 !in Digits(val, base)
    ensures |LowText(val, base)| == |Digits(val, base)| > 0
  {
    DigitsDenote(val, base);
    DigitsNotNul(Digits(val, base), base);
  }

  /** The terminator and the digits, lowest first. */
  method PutText(buf: array<int>, val: nat, base: nat) returns (cursor: nat)
    requires 1 < base <= 36 && buf.Length > |LowText(val, base)|
    modifies buf
    ensures cursor == |LowText(val, base)| + 1 && buf[..cursor] == [0] + LowText(val, base)
    ensures forall i :: cursor <= i < buf.Length ==> buf[i] == old(buf[i])
  {
    if val > 0 {
      cursor := PutLowDigits(buf, val, base);
    } else {
      buf[0], buf[1] := 0, ZERO;
      cursor := 2;
    }
  }

  /** fmt_u64d with base 10; fmt_u64, whose mask and shift are remainder and quotient, with base 16. */
  method FmtUnsigned(buf: array<int>, val: nat, base: nat)
    requires 1 < base <= 36 && buf.Length > |Digits(val, base)|
    modifies buf
    ensures HoldsString(buf[..], Digits(val, base))
    ensures forall i :: |Digits(val, base)| < i < buf.Length ==> buf[i] == old(buf[i])
  {
    LowTextReversed(val, base);
    hide LowText, Digits, Reversed, HoldsString;
    var cursor := PutText(buf, val, base);
    StrRev(buf, cursor);
    ReversedHolds(buf[..], LowText(val, base), Digits(val, base));
  }

  lemma DigitsBound(v: nat)
    requires v < U64
    ensures |Digits(v, 10)| <= 20 && |Digits(v, 16)| <= 16
    ensures v < I64 ==> |Digits(v, 10)| <= 19
  {
    Bounds64();
    LowDigitsBound(v, 10, 20);
    LowDigitsBound(v, 16, 16);
    if v < I64 {
      LowDigitsBound(v, 10, 19);
    }
  }

  /** fmt_u64d fits its 21 bytes for every 64-bit value. */
  method FmtU64d(buf: array<int>, val: nat)
    requires buf.Length >= 21 && val < U64
    modifies buf
    ensures HoldsString(buf[..], Digits(val, 10))
    ensures forall i :: 21 <= i < buf.Length ==> buf[i] == old(buf[i])
  {
    DigitsBound(val);
    FmtUnsigned(buf, val, 10);
  }

  /** fmt_u64 fits its 17 bytes. */
  method FmtU64(buf: array<int>, val: nat)
    requires buf.Length >= 17 && val < U64
    modifies buf
    ensures HoldsString(buf[..], Digits(val, 16))
    ensures forall i :: 17 <= i < buf.Length ==> buf[i] == old(buf[i])
  {
    DigitsBound(val);
    FmtUnsigned(buf, val, 16);
  }

  // ----- signed formatting: the remainder of a negative number is negative in C

  function CMod10(v: int): int {
    if v >= 0 then v % 10 else -((-v) % 10)
  }

  function CDiv10(v: int): int {
    if v >= 0 then v / 10 else -((-v) / 10)
  }

  /** The string that fmt_s64 really leaves in the buffer: for a negative number just the sign. */
  function SignedText(v: int): seq<int> {
    if v >= 0 then Digits(v, 10) else [MINUS]
  }

  /** What the loop of fmt_s64 writes, least significant first. */
  function LowSigned(v: int): seq<int>
    decreases if v < 0 then -v else v
  {
    if v == 0 then [] else [NumToChar(CMod10(v))] + LowSigned(CDiv10(v))
  }

  lemma {:induction false} LowSignedNat(v: nat)
    ensures LowSigned(v) == LowDigits(v, 10)
  {
    if v > 0 {
      LowSignedNat(v / 10);
    }
  }

  /** The last character written for a negative number, its leading digit, is a terminator. */
  lemma {:induction false} LowSignedNegative(v: int)
    requires v < 0
    ensures LowSigned(v) != [] && LowSigned(v)[|LowSigned(v)| - 1] == 0
    ensures |LowSigned(v)| == |LowDigits(-v, 10)|
    decreases -v
  {
    if v > -10 {
      assert CDiv10(v) == 0 && CMod10(v) == v;
      assert LowSigned(v) == [0] + LowSigned(0);
      assert LowDigits(-v, 10) == [NumToChar((-v) % 10)] + LowDigits(0, 10);
    } else {
      LowSignedNegative(CDiv10(v));
    }
  }

  method PutLowSigned(buf: array<int>, val: int) returns (cursor: nat)
    requires buf.Length > |LowSigned(val)|
    modifies buf
    ensures cursor == |LowSigned(val)| + 1 && buf[..cursor] == [0] + LowSigned(val)
  {
    buf[0] := 0;
    cursor := 1;
    var v := val;
    while v != 0
      invariant 0 < cursor && cursor + |LowSigned(v)| == |LowSigned(val)| + 1
      invariant buf[..cursor] + LowSigned(v) == [0] + LowSigned(val)
      decreases if v < 0 then -v else v
    {
      buf[cursor] := NumToChar(CMod10(v));
      assert buf[..cursor + 1] == buf[..cursor] + [NumToChar(CMod10(v))];
      v := CDiv10(v);
      cursor := cursor + 1;
    }
  }

  lemma SignedBound(v: int)
    requires -I64 <= v < I64
    ensures |LowSigned(v)| <= 19
  {
    Bounds64();
    if v >= 0 {
      LowSignedNat(v);
      LowDigitsBound(v, 10, 19);
    } else {
      LowSignedNegative(v);
      LowDigitsBound(-v, 10, 19);
    }
  }

  lemma NegativeHolds(buf: seq<int>, v: int)
    requires v < 0 && |LowSigned(v)| + 1 < |buf|
    requires buf[..|LowSigned(v)| + 2] == Reversed([0] + LowSigned(v) + [MINUS])
    ensures HoldsString(buf, [MINUS])
  {
    LowSignedNegative(v);
    var low := LowSigned(v);
    var n := |low|;
    assert [0] + low + [MINUS] == [0] + (low + [MINUS]);
    assert buf[0] == buf[..n + 2][0] == MINUS;
    assert buf[1] == buf[..n + 2][1] == low[n - 1];
    assert buf[..1] == [MINUS];
  }

  /** fmt_s64 fits its 21 bytes; it is right for what is not negative, and prints a bare sign otherwise. */
  method FmtS64(buf: array<int>, val: int)
    requires buf.Length >= 21 && -I64 <= val < I64
    modifies buf
    ensures HoldsString(buf[..], SignedText(val))
  {
    SignedBound(val);
    var cursor;
    if val != 0 {
      cursor := PutLowSigned(buf, val);
      if val < 0 {
        buf[cursor] := MINUS;
        cursor := cursor + 1;
        assert buf[..cursor] == [0] + LowSigned(val) + [MINUS];
      }
    } else {
      buf[0], buf[1] := 0, ZERO;
      cursor := 2;
      assert buf[..2] == [0, ZERO];
    }
    ghost var low := buf[1..cursor];
    assert buf[..cursor] == [0] + low;
    StrRev(buf, cursor);
    if val >= 0 {
      DigitsDenote(val, 10);
      DigitsNotNul(Digits(val, 10), 10);
      LowSignedNat(val);
      ReversedHolds(buf[..], low, Digits(val, 10));
    } else {
      NegativeHolds(buf[..], val);
    }
  }

  // ----- 64-bit arithmetic

  /** The signed 64-bit number that wrap-around makes of v. */
  function Wrap(v: int): (r: int)
    ensures -I64 <= r < I64
    ensures -I64 <= v < I64 ==> r == v
  {
    (v + I64) % U64 - I64
  }

  lemma WrapZero()
    ensures Wrap(0) == 0
  {
  }

  lemma WrapIs(v: int) returns (k: int)
    ensures Wrap(v) == v - k * U64
  {
    k := (v + I64) / U64;
  }

  lemma WrapShift(v: int, k: int)
    ensures Wrap(v - k * U64) == Wrap(v)
  {
    var j := WrapIs(v);
    var i := WrapIs(v - k * U64);
    assert Wrap(v - k * U64) - Wrap(v) == (j - i - k) * U64;
  }

  /** Wrapping on the way does not matter. */
  lemma WrapStep(v: int, base: int, d: int)
    ensures Wrap(Wrap(v) * base + d) == Wrap(v * base + d)
  {
    var k := WrapIs(v);
    assert Wrap(v) * base + d == v * base + d - (k * base) * U64;
    WrapShift(v * base + d, k * base);
  }

  // ----- parsing

  /** The character at position i of a C string. */
  function CharAt(s: seq<int>, i: nat): int {
    if i < |s| then s[i] else 0
  }

  /** Where the run of digits that starts at i ends. */
  function DigitsEnd(s: seq<int>, i: nat, base: nat): (r: nat)
    requires i <= |s|
    ensures i <= r <= |s| && AllDigits(s[i..r], base)
    ensures r < |s| ==> !(0 <= CharToNum(s[r]) < base)
    decreases |s| - i
  {
    if i < |s| && 0 <= CharToNum(s[i]) < base then
      var r := DigitsEnd(s, i + 1, base);
      assert s[i..r] == [s[i]] + s[i + 1..r];
      r
    else i
  }

  datatype Number = Number(value: int, end: nat)

  function SignLength(s: seq<int>): nat {
    if CharAt(s, 0) == MINUS || CharAt(s, 0) == PLUS then 1 else 0
  }

  /** A prefix of 0x means base 16, any other leading 0 base 8. */
  function BaseOf(s: seq<int>): nat {
    var p := SignLength(s);
    if CharAt(s, p) != ZERO then 10 else if CharAt(s, p + 1) == 'x' as int then 16 else 8
  }

  function PrefixLength(s: seq<int>): nat {
    SignLength(s) + (match BaseOf(s) case 16 => 2 case 8 => 1 case _ => 0)
  }

  /** strtoll_custom: the longest run of digits after sign and prefix, as 64-bit arithmetic has it, and where it
      ends. */
  function Strtoll(s: seq<int>): (r: Number)
    ensures r.end <= |s|
  {
    var start := PrefixLength(s);
    var end := DigitsEnd(s, start, BaseOf(s));
    var v := Denotes(s[start..end], BaseOf(s));
    Number(Wrap(if CharAt(s, 0) == MINUS then -v else v), end)
  }

  method ScanPrefix(s: seq<int>) returns (neg: bool, base: nat, start: nat)
    ensures neg == (CharAt(s, 0) == MINUS) && base == BaseOf(s) && start == PrefixLength(s)
  {
    neg, start := false, 0;
    if CharAt(s, 0) == MINUS {
      neg, start := true, 1;
    } else if CharAt(s, 0) == PLUS {
      start := 1;
    }
    if CharAt(s, start) == ZERO {
      if CharAt(s, start + 1) == 'x' as int {
        base := 16;
        start := start + 1;
      } else {
        base := 8;
      }
      start := start + 1;
    } else {
      base := 10;
    }
  }

  method ScanDigits(s: seq<int>, start: nat, base: nat) returns (value: int, end: nat)
    requires start <= |s|
    ensures end == DigitsEnd(s, start, base) && value == Wrap(Denotes(s[start..end], base))
  {
    hide Wrap;
    value, end := 0, start;
    assert s[start..start] == [];
    assert value == Wrap(0) by { WrapZero(); }
    while 0 <= CharToNum(CharAt(s, end)) < base
      invariant start <= end <= |s|
      invariant DigitsEnd(s, end, base) == DigitsEnd(s, start, base)
      invariant value == Wrap(Denotes(s[start..end], base))
      decreases |s| - end
    {
      DenotesSnoc(s[start..end], s[end], base);
      assert s[start..end + 1] == s[start..end] + [s[end]];
      WrapStep(Denotes(s[start..end], base), base, CharToNum(s[end]));
      value := Wrap(value * base + CharToNum(CharAt(s, end)));
      end := end + 1;
    }
  }

  method StrtollCustom(s: seq<int>) returns (value: int, end: nat)
    ensures Number(value, end) == Strtoll(s)
  {
    var neg, base, start := ScanPrefix(s);
    value, end := ScanDigits(s, start, base);
    if neg {
      WrapStep(Denotes(s[start..end], base), -1, 0);
      value := Wrap(-value);
    }
  }

  lemma {:induction false} DigitsEndAll(s: seq<int>, i: nat, base: nat)
    requires i <= |s| && AllDigits(s[i..], base)
    ensures DigitsEnd(s, i, base) == |s|
    decreases |s| - i
  {
    if i < |s| {
      assert s[i..][0] == s[i] && s[i..][1..] == s[i + 1..];
      DigitsEndAll(s, i + 1, base);
    }
  }

  /** Parsing inverts decimal formatting, up to wrap-around, and consumes the whole string. */
  lemma StrtollInvertsDigits(v: nat)
    ensures Strtoll(Digits(v, 10)) == Number(Wrap(v), |Digits(v, 10)|)
  {
    var s := Digits(v, 10);
    DigitsDenote(v, 10);
    if v > 0 {
      assert 0 <= CharToNum(s[0]) < 10;
      assert BaseOf(s) == 10 && PrefixLength(s) == 0;
      assert s[0..] == s;
      DigitsEndAll(s, 0, 10);
      assert s[0..|s|] == s;
    } else {
      assert s[1..1] == [];
    }
  }

  /** Formatting a number and parsing the text gives the number back exactly when it is not negative. */
  lemma SignedRoundTrip(v: int)
    ensures Strtoll(SignedText(v)).end == |SignedText(v)|
    ensures Strtoll(SignedText(v)).value == if v >= 0 then Wrap(v) else 0
    ensures -I64 <= v < I64 ==> Strtoll(SignedText(v)).value == if v >= 0 then v else 0
  {
    if v >= 0 {
      StrtollInvertsDigits(v);
    } else {
      assert SignedText(v) == [MINUS] && [MINUS][1..1] == [];
    }
  }

  // ----- what numbers look like, character by character

  /** What each character is worth as a digit; most are none. */
  lemma DigitValues(k: nat, c: int)
    ensures k < 10 ==> CharToNum('0' as int + k) == k
    ensures k < 26 ==> CharToNum('A' as int + k) == 10 + k && CharToNum('a' as int + k) == 10 + k
    ensures !(48 <= c <= 57) && !(65 <= c <= 90) && !(97 <= c <= 122) ==> CharToNum(c) == -1
  {
  }

  /** Numbers are written with the digits from 0 to 9 and small letters. */
  lemma {:induction false} LowDigitChars(v: nat, base: nat)
    requires 1 < base <= 36
    ensures forall i :: 0 <= i < |LowDigits(v, base)| ==>
      48 <= LowDigits(v, base)[i] <= 57 || 97 <= LowDigits(v, base)[i] <= 122
    decreases v
  {
    if v > 0 {
      DivShrinks(v, base);
      LowDigitChars(v / base, base);
    }
  }

  lemma DigitChars(v: nat, base: nat)
    requires 1 < base <= 36
    ensures forall i :: 0 <= i < |Digits(v, base)| ==> 48 <= Digits(v, base)[i] <= 57 || 97 <= Digits(v, base)[i] <= 122
  {
    LowDigitChars(v, base);
  }

  /** The first of several digits counts for as many powers of the base as there are digits behind it. */
  lemma {:induction false} DenotesFirst(d: int, s: seq<int>, base: nat)
    ensures Denotes([d] + s, base) == CharToNum(d) * Pow(base, |s|) + Denotes(s, base)
    decreases |s|
  {
    if s == [] {
      assert [d] + s == [] + [d];
      DenotesSnoc([], d, base);
    } else {
      var front, last := s[..|s| - 1], s[|s| - 1];
      assert [d] + s == ([d] + front) + [last] && s == front + [last];
      DenotesSnoc([d] + front, last, base);
      DenotesSnoc(front, last, base);
      DenotesFirst(d, front, base);
      Distribute(CharToNum(d), Pow(base, |front|), Denotes(front, base), base);
    }
  }

  lemma Distribute(d: int, p: int, v: int, base: int)
    ensures (d * p + v) * base == d * (base * p) + v * base
  {
  }

  /** The prefix that selects a base. */
  function BasePrefix(base: nat): seq<int> {
    if base == 16 then ['0' as int, 'x' as int] else if base == 8 then ['0' as int] else []
  }

  /** A number as strtoll_custom takes it: a sign or none, a prefix, and digits of the base, up to the first character
      that is none. Decimal digits do not begin with zero, and an x behind the zero of an octal number would make
      it a hexadecimal one. */
  ghost predicate IsNumeral(sign: seq<int>, base: nat, ds: seq<int>, rest: seq<int>) {
    && sign in {[], ['-' as int], ['+' as int]} && base in {8, 10, 16} && AllDigits(ds, base)
    && (rest != [] ==> !(0 <= CharToNum(rest[0]) < base))
    && (base == 10 ==> ds != [] && ds[0] != '0' as int)
    && (base == 8 && ds == [] && rest != [] ==> rest[0] != 'x' as int)
  }

  /** Its value has the sign in front of what the digits denote, wrapped around to 64 bits, and the text is taken up
      to the end of the digits. */
  lemma NumeralReads(sign: seq<int>, base: nat, ds: seq<int>, rest: seq<int>)
    requires IsNumeral(sign, base, ds, rest)
    ensures var v := Denotes(ds, base);
      Strtoll(sign + BasePrefix(base) + ds + rest)
        == Number(Wrap(if sign == ['-' as int] then -v else v), |sign| + |BasePrefix(base)| + |ds|)
  {
    hide Wrap, Denotes, BaseOf, PrefixLength, BasePrefix, DigitsEnd, CharToNum;
    var front := sign + BasePrefix(base);
    var s := front + ds + rest;
    NumeralPrefix(sign, base, ds, rest);
    Slices(front, ds, rest);
    DigitsUpTo(s, |front|, |front| + |ds|, base);
  }

  lemma Slices(a: seq<int>, b: seq<int>, c: seq<int>)
    ensures (a + b + c)[|a|..|a| + |b|] == b
    ensures c != [] ==> (a + b + c)[|a| + |b|] == c[0]
  {
  }

  lemma NumeralPrefix(sign: seq<int>, base: nat, ds: seq<int>, rest: seq<int>)
    requires IsNumeral(sign, base, ds, rest)
    ensures var s := sign + BasePrefix(base) + ds + rest;
      && BaseOf(s) == base && PrefixLength(s) == |sign| + |BasePrefix(base)|
      && (CharAt(s, 0) == MINUS <==> sign == ['-' as int])
  {
    var s := sign + BasePrefix(base) + ds + rest;
    assert s == sign + (BasePrefix(base) + (ds + rest));
    assert base == 10 ==> CharToNum(ds[0]) >= 0;
    assert base == 8 && ds != [] ==> CharToNum(ds[0]) < 8;
    assert SignLength(s) == |sign|;
  }

  lemma {:induction false} DigitsUpTo(s: seq<int>, i: nat, end: nat, base: nat)
    requires i <= end <= |s| && AllDigits(s[i..end], base)
    requires end < |s| ==> !(0 <= CharToNum(s[end]) < base)
    ensures DigitsEnd(s, i, base) == end
    decreases end - i
  {
    if i < end {
      assert s[i..end][0] == s[i] && s[i..end][1..] == s[i + 1..end];
      DigitsUpTo(s, i + 1, end, base);
    }
  }

  /** Any value, written in any of the three bases with any sign, reads as itself or as its negative. */
  lemma WrittenReads(v: nat, sign: seq<int>, base: nat)
    requires sign in {[], ['-' as int], ['+' as int]} && base in {8, 10, 16}
    ensures var text, w: int := sign + BasePrefix(base) + Digits(v, base), v;
      Strtoll(text) == Number(Wrap(if sign == ['-' as int] then -w else w), |text|)
  {
    var ds := Digits(v, base);
    DigitsDenote(v, base);
    if base == 10 && v == 0 {
      ZeroReads(sign);
    } else {
      NumeralReads(sign, base, ds, []);
      assert sign + BasePrefix(base) + ds + [] == sign + BasePrefix(base) + ds;
    }
  }

  lemma ZeroReads(sign: seq<int>)
    requires sign in {[], ['-' as int], ['+' as int]}
    ensures Strtoll(sign + BasePrefix(10) + Digits(0, 10)) == Number(0, |sign| + 1)
  {
    NumeralReads(sign, 8, [], []);
    assert sign + BasePrefix(10) + Digits(0, 10) == sign + BasePrefix(8) + [] + [];
  }
}
