/**
 * Escape decoding of a closed range of the buffer: `parseString` of the current
 * variant and `buildString` of the older one (destructive backspace).
 */
module Strings {
  import opened Chars
  import opened Values

  // ---- Library pieces: Integer.parseInt(_, 16) and StringBuilder.appendCodePoint ----

  predicate AllHex(t: seq<CodeUnit>) {
    forall i | 0 <= i < |t| :: IsHexDigit(t[i])
  }

  /** The value of a run of hex digits, most significant first. */
  function HexValue(t: seq<CodeUnit>): nat
    requires AllHex(t)
  {
    if t == [] then 0 else HexValue(t[..|t| - 1]) * 16 + HexDigitValue(t[|t| - 1])
  }

  /**
   * `Integer.parseInt(t, 16)`: an optional sign and then at least one hex digit.
   * (Its overflow check is not modelled: the spans handed to it hold at most four characters.)
   */
  function ParseHex(t: seq<CodeUnit>): (r: Result<int>)
    ensures r.Err? ==> r.error == MalformedHex
    ensures r.Ok? <==> |t| > 0 && (AllHex(t) || (|t| > 1 && (t[0] == PLUS || t[0] == MINUS) && AllHex(t[1..])))
    ensures AllHex(t) && |t| > 0 ==> r == Ok(HexValue(t))
    ensures r.Ok? && t[0] == PLUS ==> r.value == HexValue(t[1..])
    ensures r.Ok? && t[0] == MINUS ==> r.value == -(HexValue(t[1..]) as int)
  {
    if |t| == 0 then Err(MalformedHex)
    else if t[0] == PLUS || t[0] == MINUS then
      var digits := t[1..];
      if |digits| == 0 || !AllHex(digits) then Err(MalformedHex)
      else Ok(if t[0] == MINUS then -(HexValue(digits) as int) else HexValue(digits))
    else if AllHex(t) then Ok(HexValue(t))
    else Err(MalformedHex)
  }

  predicate IsHighSurrogate(c: CodeUnit) { 0xD800 <= c <= 0xDBFF }
  predicate IsLowSurrogate(c: CodeUnit) { 0xDC00 <= c <= 0xDFFF }

  /**
   * `StringBuilder.appendCodePoint`: one unit for a BMP code point, a surrogate
   * pair for a supplementary one, an exception for anything else.
   */
  function AppendCodePoint(cp: int): (r: Result<seq<CodeUnit>>)
    ensures r.Ok? <==> 0 <= cp <= 0x10FFFF
    ensures r.Err? ==> r.error == IllegalCodePoint
    ensures r.Ok? && cp < 0x10000 ==> r.value == [cp]
    ensures r.Ok? && cp >= 0x10000 ==>
      |r.value| == 2 && IsHighSurrogate(r.value[0]) && IsLowSurrogate(r.value[1])
  {
    if 0 <= cp < 0x10000 then Ok([cp])
    else if 0x10000 <= cp <= 0x10FFFF then
      Ok([0xD800 + (cp - 0x10000) / 0x400, 0xDC00 + (cp - 0x10000) % 0x400])
    else Err(IllegalCodePoint)
  }

  /** The code point a surrogate pair stands for. */
  function SurrogatePairValue(high: CodeUnit, low: CodeUnit): int
    requires IsHighSurrogate(high) && IsLowSurrogate(low)
  {
    0x10000 + (high - 0xD800) * 0x400 + (low - 0xDC00)
  }

  /** The surrogate pair `appendCodePoint` writes for a supplementary code point decodes back to it. */
  lemma SurrogatePairRoundTrip(cp: int)
    requires 0x10000 <= cp <= 0x10FFFF
    ensures AppendCodePoint(cp).Ok?
    ensures SurrogatePairValue(AppendCodePoint(cp).value[0], AppendCodePoint(cp).value[1]) == cp
  {
    var v := cp - 0x10000;
    assert v == (v / 0x400) * 0x400 + v % 0x400;
  }

  // ---- The escape tables ----

  /** The current variant's table: `n b t f r / \ "`. */
  function EscapeLookup(c: CodeUnit): (r: Result<CodeUnit>)
    ensures r.Err? ==> r.error == InvalidEscape
    ensures r.Ok? <==> c in {LOWER_N, LOWER_B, LOWER_T, LOWER_F, LOWER_R, SLASH, BACKSLASH, QUOTE}
    ensures r.Ok? && (c == SLASH || c == BACKSLASH || c == QUOTE) ==> r.value == c
  {
    if c == LOWER_N then Ok(LINE_FEED)
    else if c == LOWER_B then Ok(BACKSPACE)
    else if c == LOWER_T then Ok(TAB)
    else if c == LOWER_F then Ok(FORM_FEED)
    else if c == LOWER_R then Ok(CARRIAGE_RETURN)
    else if c == SLASH then Ok(SLASH)
    else if c == BACKSLASH then Ok(BACKSLASH)
    else if c == QUOTE then Ok(QUOTE)
    else Err(InvalidEscape)
  }

  /** The older variant's table: the same without `b`. */
  function LegacyEscapeLookup(c: CodeUnit): (r: Result<CodeUnit>)
    ensures c != LOWER_B ==> r == EscapeLookup(c)
    ensures c == LOWER_B ==> r == Err(InvalidEscape)
  {
    if c == LOWER_B then Err(InvalidEscape) else EscapeLookup(c)
  }

  /** Puts decoded output in front of the result of decoding the rest. */
  function Prepend(b: seq<CodeUnit>, r: Result<seq<CodeUnit>>): Result<seq<CodeUnit>> {
    if r.Ok? then Ok(b + r.value) else r
  }

  lemma PrependNil(r: Result<seq<CodeUnit>>)
    ensures Prepend([], r) == r
  {
    if r.Ok? {
      assert [] + r.value == r.value;
    }
  }

  lemma PrependPrepend(a: seq<CodeUnit>, b: seq<CodeUnit>, r: Result<seq<CodeUnit>>)
    ensures Prepend(a, Prepend(b, r)) == Prepend(a + b, r)
  {
    if r.Ok? {
      assert a + (b + r.value) == (a + b) + r.value;
    }
  }

  predicate NoBackslash(s: seq<CodeUnit>, lo: int, hi: int) {
    forall k | 0 <= lo <= k < hi && k < |s| :: s[k] != BACKSLASH
  }

  // ---- parseString (current variant) ----

  /** What `parseString` appends from index `i` to `to`, scanning left to right. */
  function UnescapeFrom(s: seq<CodeUnit>, i: nat, last: int): (r: Result<seq<CodeUnit>>)
    requires last < |s| && i <= last + 1
    ensures r.Ok? ==> |r.value| <= last + 1 - i
    ensures r.Err? ==> r.error != OutOfBounds
    decreases last + 1 - i
  {
    if i > last then Ok([])
    else if s[i] == BACKSLASH && i + 1 <= last then
      if s[i + 1] == LOWER_U then
        var cpEnd := i + 5;
        if cpEnd > last then Err(TruncatedCodePoint)
        else
          var cp :- ParseHex(s[i + 2..cpEnd + 1]);
          var units :- AppendCodePoint(cp);
          var rest :- UnescapeFrom(s, cpEnd + 1, last);
          Ok(units + rest)
      else
        var e :- EscapeLookup(s[i + 1]);
        var rest :- UnescapeFrom(s, i + 2, last);
        Ok([e] + rest)
    else
      var rest :- UnescapeFrom(s, i + 1, last);
      Ok([s[i]] + rest)
  }

  /** The string `parseString(from, to)` builds from the closed range `[from, to]`. */
  function Unescape(s: seq<CodeUnit>, from: int, last: int): (r: Result<seq<CodeUnit>>)
    ensures r == Err(OutOfBounds) <==> from < 0 || last >= |s|
    ensures r.Ok? ==> |r.value| <= if from <= last then last + 1 - from else 0
  {
    if from < 0 || last >= |s| then Err(OutOfBounds)
    else if from > last then Ok([])
    else UnescapeFrom(s, from, last)
  }

  /**
   * One turn of `parseString`'s loop at index `i`: what it appends and the index
   * the next turn starts at.
   */
  method ParseStep(chars: seq<CodeUnit>, i: nat, last: int) returns (r: Result<(seq<CodeUnit>, nat)>)
    requires i <= last < |chars|
    ensures r.Ok? ==> i < r.value.1 <= last + 1
    ensures r.Ok? ==> UnescapeFrom(chars, i, last) == Prepend(r.value.0, UnescapeFrom(chars, r.value.1, last))
    ensures r.Err? ==> UnescapeFrom(chars, i, last) == Err(r.error)
  {
    var at := i;
    if chars[at] == BACKSLASH && at + 1 <= last {
      at := at + 1;
      if chars[at] == LOWER_U {
        var cpStart := at + 1;
        var cpEnd := cpStart + 3;
        if cpEnd > last {
          return Err(TruncatedCodePoint);
        }
        var cp :- ParseHex(chars[cpStart..cpEnd + 1]);
        var units :- AppendCodePoint(cp);
        at := cpEnd;
        r := Ok((units, at + 1));
      } else {
        var escaped :- EscapeLookup(chars[at]);
        r := Ok(([escaped], at + 1));
      }
    } else {
      r := Ok(([chars[at]], at + 1));
    }
  }

  /** `parseString(from, to)` of the current variant. */
  method ParseString(chars: seq<CodeUnit>, from: int, last: int) returns (r: Result<seq<CodeUnit>>)
    ensures r == Unescape(chars, from, last)
  {
    if from < 0 || last >= |chars| {
      return Err(OutOfBounds);
    }
    var builder: seq<CodeUnit> := [];
    var i := from;
    PrependNil(Unescape(chars, from, last));
    while i <= last
      invariant from <= i
      invariant i > last + 1 ==> i == from && builder == []
      invariant i <= last + 1 ==> Unescape(chars, from, last) == Prepend(builder, UnescapeFrom(chars, i, last))
      decreases last + 1 - i
    {
      var step :- ParseStep(chars, i, last);
      PrependPrepend(builder, step.0, UnescapeFrom(chars, step.1, last));
      builder := builder + step.0;
      i := step.1;
    }
    assert builder + [] == builder;
    return Ok(builder);
  }

  // ---- buildString (older variant) ----

  /** The older loop from index `i` with the output `acc` built so far; `\b` deletes from `acc`. */
  function LegacyBuild(s: seq<CodeUnit>, i: nat, last: int, acc: seq<CodeUnit>): (r: Result<seq<CodeUnit>>)
    requires last < |s| && i <= last + 1
    ensures r.Err? ==> r.error != OutOfBounds
    decreases last + 1 - i, 0
  {
    if i > last then Ok(acc)
    else if s[i] == BACKSLASH && i + 1 <= last then
      var e := s[i + 1];
      if e == LOWER_U then
        var cpEnd := i + 5;
        if cpEnd > last then Err(TruncatedCodePoint)
        else
          var hex :- LegacyUnescape(s, i + 2, cpEnd);
          var cp :- ParseHex(hex);
          var units :- AppendCodePoint(cp);
          LegacyBuild(s, cpEnd + 1, last, acc + units)
      else if e == LOWER_B then
        if |acc| == 0 then Err(IndexOutOfBounds)
        else LegacyBuild(s, i + 2, last, acc[..|acc| - 1])
      else
        var c :- LegacyEscapeLookup(e);
        LegacyBuild(s, i + 2, last, acc + [c])
    else LegacyBuild(s, i + 1, last, acc + [s[i]])
  }

  /** The string `buildString(from, to)` builds; the four characters of a `\u` escape are decoded by it first. */
  function LegacyUnescape(s: seq<CodeUnit>, from: int, last: int): (r: Result<seq<CodeUnit>>)
    ensures r == Err(OutOfBounds) <==> from < 0 || last >= |s|
    decreases if 0 <= from <= last + 1 then last + 1 - from else 0, 1
  {
    if from < 0 || last >= |s| then Err(OutOfBounds)
    else if from > last then Ok([])
    else LegacyBuild(s, from, last, [])
  }

  /** `StringBuilder.deleteCharAt(Math.max(length - 1, 0))`. */
  method DeleteLast(builder: seq<CodeUnit>) returns (r: Result<seq<CodeUnit>>)
    ensures r == if |builder| == 0 then Err(IndexOutOfBounds) else Ok(builder[..|builder| - 1])
  {
    var at := if |builder| - 1 > 0 then |builder| - 1 else 0;
    if at >= |builder| {
      return Err(IndexOutOfBounds);
    }
    assert at == |builder| - 1;
    assert builder[..at] + builder[at + 1..] == builder[..|builder| - 1];
    return Ok(builder[..at] + builder[at + 1..]);
  }

  /** `buildString(from, to)` of the older variant; it calls itself on the digits of a `\u` escape. */
  method LegacyBuildString(chars: seq<CodeUnit>, from: int, last: int) returns (r: Result<seq<CodeUnit>>)
    ensures r == LegacyUnescape(chars, from, last)
    decreases if 0 <= from <= last + 1 then last + 1 - from else 0
  {
    if from < 0 || last >= |chars| {
      return Err(OutOfBounds);
    }
    var builder: seq<CodeUnit> := [];
    var i := from;
    while i <= last
      invariant from <= i
      invariant i > last + 1 ==> i == from && builder == []
      invariant i <= last + 1 ==> LegacyUnescape(chars, from, last) == LegacyBuild(chars, i, last, builder)
      decreases last + 1 - i
    {
      if chars[i] == BACKSLASH && i + 1 <= last {
        i := i + 1;
        if chars[i] == LOWER_U {
          var cpStart := i + 1;
          var cpEnd := cpStart + 3;
          if cpEnd > last {
            return Err(TruncatedCodePoint);
          }
          var hex :- LegacyBuildString(chars, cpStart, cpEnd);
          var cp :- ParseHex(hex);
          var units :- AppendCodePoint(cp);
          builder := builder + units;
          i := cpEnd;
        } else if chars[i] == LOWER_B {
          builder :- DeleteLast(builder);
        } else {
          var escaped :- LegacyEscapeLookup(chars[i]);
          builder := builder + [escaped];
        }
      } else {
        builder := builder + [chars[i]];
      }
      i := i + 1;
    }
    return Ok(builder);
  }

  // ---- What the decoders do with each kind of input ----

  /** A backslash-free stretch is copied to the output unchanged. */
  lemma {:induction false} UnescapePlainStretch(s: seq<CodeUnit>, i: nat, k: nat, last: int)
    requires last < |s| && i <= k <= last + 1
    requires NoBackslash(s, i, k)
    ensures UnescapeFrom(s, i, last) == Prepend(s[i..k], UnescapeFrom(s, k, last))
    decreases k - i
  {
    if i == k {
      PrependNil(UnescapeFrom(s, k, last));
    } else {
      UnescapePlainStretch(s, i + 1, k, last);
      PrependPrepend([s[i]], s[i + 1..k], UnescapeFrom(s, k, last));
      assert [s[i]] + s[i + 1..k] == s[i..k];
    }
  }

  /** A range without backslashes decodes to exactly its own characters. */
  lemma UnescapeWithoutBackslash(s: seq<CodeUnit>, from: nat, last: int)
    requires from <= last + 1 && last < |s|
    requires NoBackslash(s, from, last + 1)
    ensures Unescape(s, from, last) == Ok(s[from..last + 1])
  {
    UnescapePlainStretch(s, from, last + 1, last);
    assert s[from..last + 1] + [] == s[from..last + 1];
  }

  /** The older loop also copies a backslash-free stretch unchanged. */
  lemma {:induction false} LegacyPlainStretch(s: seq<CodeUnit>, i: nat, k: nat, last: int, acc: seq<CodeUnit>)
    requires last < |s| && i <= k <= last + 1
    requires NoBackslash(s, i, k)
    ensures LegacyBuild(s, i, last, acc) == LegacyBuild(s, k, last, acc + s[i..k])
    decreases k - i
  {
    if i == k {
      assert acc + s[i..k] == acc;
    } else {
      LegacyPlainStretch(s, i + 1, k, last, acc + [s[i]]);
      assert acc + [s[i]] + s[i + 1..k] == acc + s[i..k];
    }
  }

  /** In the older variant too, a range without backslashes decodes to its own characters. */
  lemma LegacyUnescapeWithoutBackslash(s: seq<CodeUnit>, from: nat, last: int)
    requires from <= last + 1 && last < |s|
    requires NoBackslash(s, from, last + 1)
    ensures LegacyUnescape(s, from, last) == Ok(s[from..last + 1])
  {
    LegacyPlainStretch(s, from, last + 1, last, []);
    assert [] + s[from..last + 1] == s[from..last + 1];
  }

  /**
   * Between backslash-free text, an escape from the table decodes to its one
   * character (`\b` to a literal U+0008), and a backslash before any other
   * character except `u` is an invalid escape.
   */
  lemma TableEscape(t: seq<CodeUnit>, x: CodeUnit, u: seq<CodeUnit>)
    requires NoBackslash(t, 0, |t|) && NoBackslash(u, 0, |u|) && x != LOWER_U
    ensures var s := t + [BACKSLASH, x] + u;
      Unescape(s, 0, |s| - 1) == if EscapeLookup(x).Ok? then Ok(t + [EscapeLookup(x).value] + u) else Err(InvalidEscape)
  {
    var s := t + [BACKSLASH, x] + u;
    var last := |s| - 1;
    UnescapePlainStretch(s, 0, |t|, last);
    assert s[0..|t|] == t;
    UnescapePlainStretch(s, |t| + 2, |s|, last);
    assert s[|t| + 2..|s|] == u;
    if EscapeLookup(x).Ok? {
      assert t + ([EscapeLookup(x).value] + (u + [])) == t + [EscapeLookup(x).value] + u;
    }
  }

  /** A backslash as the last character of the range is copied literally. */
  lemma TrailingBackslash(t: seq<CodeUnit>)
    requires NoBackslash(t, 0, |t|)
    ensures Unescape(t + [BACKSLASH], 0, |t|) == Ok(t + [BACKSLASH])
  {
    var s := t + [BACKSLASH];
    UnescapePlainStretch(s, 0, |t|, |t|);
    assert s[0..|t|] == t;
    assert s[|t|] == BACKSLASH;
    assert UnescapeFrom(s, |t| + 1, |t|) == Ok([]);
    assert [s[|t|]] + [] == [BACKSLASH];
    assert UnescapeFrom(s, |t|, |t|) == Ok([BACKSLASH]);
    assert Prepend(t, Ok([BACKSLASH])) == Ok(t + [BACKSLASH]);
    assert Unescape(s, 0, |t|) == UnescapeFrom(s, 0, |t|);
  }

  /** Fewer than four characters after `\u` before the end of the range: a truncated code point. */
  lemma TruncatedCodePointEscape(t: seq<CodeUnit>, r: seq<CodeUnit>)
    requires NoBackslash(t, 0, |t|) && |r| < 4
    ensures var s := t + [BACKSLASH, LOWER_U] + r;
      Unescape(s, 0, |s| - 1) == Err(TruncatedCodePoint)
  {
    var s := t + [BACKSLASH, LOWER_U] + r;
    UnescapePlainStretch(s, 0, |t|, |s| - 1);
  }

  // ---- \uXXXX escapes ----

  function HexChar(d: nat): (c: CodeUnit)
    requires d < 16
    ensures IsHexDigit(c) && HexDigitValue(c) == d
  {
    if d < 10 then DIGIT_ZERO + d else LOWER_A + (d - 10)
  }

  /** Four lower-case hex digits for a code unit. */
  function Hex4(c: CodeUnit): seq<CodeUnit> {
    [HexChar(c / 0x1000), HexChar(c / 0x100 % 16), HexChar(c / 0x10 % 16), HexChar(c % 16)]
  }

  /** The value of four hex digits. */
  lemma HexValueOfFour(h: seq<CodeUnit>)
    requires |h| == 4 && AllHex(h)
    ensures HexValue(h) ==
      ((HexDigitValue(h[0]) * 16 + HexDigitValue(h[1])) * 16 + HexDigitValue(h[2])) * 16 + HexDigitValue(h[3])
  {
    assert h[..1][..0] == [] && h[..2][..1] == h[..1] && h[..3][..2] == h[..2] && h[..3] == h[..|h| - 1];
    assert HexValue(h[..1]) == HexDigitValue(h[0]);
    assert HexValue(h[..2]) == HexValue(h[..1]) * 16 + HexDigitValue(h[1]);
    assert HexValue(h[..3]) == HexValue(h[..2]) * 16 + HexDigitValue(h[2]);
  }

  /** A code unit from its four base-16 digits. */
  lemma HexDigitsOf(c: CodeUnit)
    ensures c == ((c / 0x1000 * 16 + c / 0x100 % 16) * 16 + c / 0x10 % 16) * 16 + c % 16
  {
    assert c / 0x100 == c / 0x1000 * 16 + c / 0x100 % 16;
    assert c / 0x10 == c / 0x100 * 16 + c / 0x10 % 16;
  }

  lemma Hex4RoundTrip(c: CodeUnit)
    ensures AllHex(Hex4(c)) && HexValue(Hex4(c)) == c
  {
    HexValueOfFour(Hex4(c));
    HexDigitsOf(c);
  }

  /** The six characters `\uXXXX` that stand for one code unit. */
  function EscapeText(c: CodeUnit): seq<CodeUnit> {
    [BACKSLASH, LOWER_U] + Hex4(c)
  }

  /** Every code unit of `cs`, each written as a `\uXXXX` escape. */
  function EscapeAll(cs: seq<CodeUnit>): (t: seq<CodeUnit>)
    ensures |t| == 6 * |cs|
  {
    if cs == [] then [] else EscapeText(cs[0]) + EscapeAll(cs[1..])
  }

  /** Four hex digits name a value that fits one code unit. */
  lemma HexValueOfFourBound(h: seq<CodeUnit>)
    requires |h| == 4 && AllHex(h)
    ensures HexValue(h) < 0x10000
  {
    HexValueOfFour(h);
    var two := HexDigitValue(h[0]) * 16 + HexDigitValue(h[1]);
    assert two < 0x100;
    var three := two * 16 + HexDigitValue(h[2]);
    assert three < 0x1000;
  }

  /**
   * A `\u` escape whose four characters are hex digits, in either case, consumes
   * six characters and outputs the one code unit they name.
   */
  lemma UnescapeHexEscape(s: seq<CodeUnit>, i: nat, last: int)
    requires i + 5 <= last < |s| && s[i] == BACKSLASH && s[i + 1] == LOWER_U && AllHex(s[i + 2..i + 6])
    ensures HexValue(s[i + 2..i + 6]) < 0x10000
    ensures UnescapeFrom(s, i, last) == Prepend([HexValue(s[i + 2..i + 6])], UnescapeFrom(s, i + 6, last))
  {
    HexValueOfFourBound(s[i + 2..i + 6]);
  }

  /** The escape written by `EscapeText` decodes to its code unit. */
  lemma UnescapeOneEscape(s: seq<CodeUnit>, i: nat, last: int, c: CodeUnit)
    requires i + 5 <= last < |s| && s[i..i + 6] == EscapeText(c)
    ensures UnescapeFrom(s, i, last) == Prepend([c], UnescapeFrom(s, i + 6, last))
  {
    assert s[i] == BACKSLASH && s[i + 1] == LOWER_U;
    assert s[i + 2..i + 6] == Hex4(c);
    Hex4RoundTrip(c);
    UnescapeHexEscape(s, i, last);
  }

  /** Text made only of `\u` escapes, each followed by four hex digits in either case. */
  predicate HexEscapeRun(t: seq<CodeUnit>)
    decreases |t|
  {
    t == [] || (|t| >= 6 && t[0] == BACKSLASH && t[1] == LOWER_U && AllHex(t[2..6]) && HexEscapeRun(t[6..]))
  }

  /** The code units a run of `\u` escapes names, in order. */
  function HexEscapeUnits(t: seq<CodeUnit>): (cs: seq<CodeUnit>)
    requires HexEscapeRun(t)
    ensures 6 * |cs| == |t|
    decreases |t|
  {
    if t == [] then []
    else
      HexValueOfFourBound(t[2..6]);
      [HexValue(t[2..6])] + HexEscapeUnits(t[6..])
  }

  /** A tail of `s` made only of `\u` escapes decodes to the code units they name. */
  lemma {:induction false} UnescapeEscapesFrom(s: seq<CodeUnit>, i: nat)
    requires i <= |s| && HexEscapeRun(s[i..])
    ensures UnescapeFrom(s, i, |s| - 1) == Ok(HexEscapeUnits(s[i..]))
    decreases |s| - i
  {
    if i < |s| {
      var t := s[i..];
      assert s[i] == t[0] && s[i + 1] == t[1] && s[i + 2..i + 6] == t[2..6];
      assert s[i + 6..] == t[6..];
      UnescapeHexEscape(s, i, |s| - 1);
      UnescapeEscapesFrom(s, i + 6);
    }
  }

  /** Writing code units with `EscapeAll` gives a run of escapes naming exactly them. */
  lemma {:induction false} EscapeAllIsRun(cs: seq<CodeUnit>)
    ensures HexEscapeRun(EscapeAll(cs)) && HexEscapeUnits(EscapeAll(cs)) == cs
  {
    if cs != [] {
      var t := EscapeAll(cs);
      assert t == EscapeText(cs[0]) + EscapeAll(cs[1..]);
      assert t[0] == BACKSLASH && t[1] == LOWER_U;
      assert t[2..6] == Hex4(cs[0]) && t[6..] == EscapeAll(cs[1..]);
      Hex4RoundTrip(cs[0]);
      EscapeAllIsRun(cs[1..]);
      assert [cs[0]] + cs[1..] == cs;
    }
  }

  /**
   * Any sequence of code units written entirely as `\uXXXX` escapes decodes back
   * to itself; in particular the two escapes of a surrogate pair decode to the pair.
   */
  lemma UnescapeEscapeAll(cs: seq<CodeUnit>)
    ensures Unescape(EscapeAll(cs), 0, |EscapeAll(cs)| - 1) == Ok(cs)
  {
    var s := EscapeAll(cs);
    EscapeAllIsRun(cs);
    if cs != [] {
      assert s[0..] == s;
      UnescapeEscapesFrom(s, 0);
    }
  }

  /**
   * `\uD83E\uDDEA`, upper-case hex, decodes to the surrogate pair of U+1F9EA:
   * the two escapes are decoded one by one and the units they name form the pair.
   */
  lemma UpperCaseSurrogateEscapes()
    ensures var s: seq<CodeUnit> := [BACKSLASH, LOWER_U, 0x44, 0x38, 0x33, 0x45, BACKSLASH, LOWER_U, 0x44, 0x44, 0x45, 0x41];
      Unescape(s, 0, |s| - 1) == Ok([0xD83E, 0xDDEA])
    ensures SurrogatePairValue(0xD83E, 0xDDEA) == 0x1F9EA
  {
    var s: seq<CodeUnit> := [BACKSLASH, LOWER_U, 0x44, 0x38, 0x33, 0x45, BACKSLASH, LOWER_U, 0x44, 0x44, 0x45, 0x41];
    var high := s[2..6];
    var low := s[8..12];
    assert high == [0x44, 0x38, 0x33, 0x45] && low == [0x44, 0x44, 0x45, 0x41];
    assert AllHex(high) && AllHex(low);
    HexValueOfFour(high);
    assert HexValue(high) == 0xD83E;
    HexValueOfFour(low);
    assert HexDigitValue(0x44) == 13 && HexDigitValue(0x45) == 14 && HexDigitValue(0x41) == 10;
    assert HexValue(low) == 0xDDEA;
    assert s[0..] == s && s[6..] == s[6..12] && s[6..][2..6] == low && s[6..][6..] == [];
    assert HexEscapeRun(s[6..]);
    assert HexEscapeRun(s);
    assert HexEscapeUnits(s[6..]) == [0xDDEA];
    assert HexEscapeUnits(s) == [0xD83E, 0xDDEA];
    UnescapeEscapesFrom(s, 0);
  }

  // ---- Where the two variants agree ----

  /**
   * The escapes both variants treat alike: no `\b`, and no backslash among the
   * four characters of a complete `\u` escape.
   */
  predicate SharedEscapes(s: seq<CodeUnit>, i: nat, last: int)
    requires last < |s| && i <= last + 1
    decreases last + 1 - i
  {
    if i > last then true
    else if s[i] == BACKSLASH && i + 1 <= last then
      if s[i + 1] == LOWER_B then false
      else if s[i + 1] == LOWER_U then
        i + 5 > last || (NoBackslash(s, i + 2, i + 6) && SharedEscapes(s, i + 6, last))
      else SharedEscapes(s, i + 2, last)
    else SharedEscapes(s, i + 1, last)
  }

  /** Without `\b` and backslashes inside `\u` digits, the older loop decodes like the current one. */
  lemma {:induction false} LegacyAgreesOnSharedEscapes(s: seq<CodeUnit>, i: nat, last: int, acc: seq<CodeUnit>)
    requires last < |s| && i <= last + 1
    requires SharedEscapes(s, i, last)
    ensures LegacyBuild(s, i, last, acc) == Prepend(acc, UnescapeFrom(s, i, last))
    decreases last + 1 - i
  {
    if i > last {
      assert acc + [] == acc;
    } else if s[i] == BACKSLASH && i + 1 <= last {
      if s[i + 1] == LOWER_U {
        if i + 5 <= last {
          LegacyUnescapeWithoutBackslash(s, i + 2, i + 5);
          var cp := ParseHex(s[i + 2..i + 6]);
          if cp.Ok? && AppendCodePoint(cp.value).Ok? {
            var units := AppendCodePoint(cp.value).value;
            LegacyAgreesOnSharedEscapes(s, i + 6, last, acc + units);
            PrependPrepend(acc, units, UnescapeFrom(s, i + 6, last));
          }
        }
      } else {
        var e := EscapeLookup(s[i + 1]);
        if e.Ok? {
          LegacyAgreesOnSharedEscapes(s, i + 2, last, acc + [e.value]);
          PrependPrepend(acc, [e.value], UnescapeFrom(s, i + 2, last));
        }
      }
    } else {
      LegacyAgreesOnSharedEscapes(s, i + 1, last, acc + [s[i]]);
      PrependPrepend(acc, [s[i]], UnescapeFrom(s, i + 1, last));
    }
  }

  /**
   * The older variant's `\b` removes the last character output so far
   * (`back\bspace` gives `bacspace`) and fails when nothing has been output.
   */
  lemma LegacyBackspaceDeletes(t: seq<CodeUnit>, u: seq<CodeUnit>)
    requires NoBackslash(t, 0, |t|) && NoBackslash(u, 0, |u|)
    ensures var s := t + [BACKSLASH, LOWER_B] + u;
      LegacyUnescape(s, 0, |s| - 1) == if t == [] then Err(IndexOutOfBounds) else Ok(t[..|t| - 1] + u)
  {
    var s := t + [BACKSLASH, LOWER_B] + u;
    var last := |s| - 1;
    LegacyPlainStretch(s, 0, |t|, last, []);
    assert s[0..|t|] == t && [] + t == t;
    assert s[|t|] == BACKSLASH && s[|t| + 1] == LOWER_B;
    if t != [] {
      LegacyPlainStretch(s, |t| + 2, |s|, last, t[..|t| - 1]);
      assert s[|t| + 2..|s|] == u;
    }
  }

  /**
   * The older variant decodes the four characters of a `\u` escape as a string of
   * their own before reading them as hex: in `\u1\b2` the `\b` deletes the `1`,
   * leaving `2`, while the current variant rejects `1\b2` as hex.
   */
lemma NestedEscapeInCodePoint()
    ensures var s: seq<CodeUnit> := [BACKSLASH, LOWER_U, DIGIT_ZERO + 1, BACKSLASH, LOWER_B, DIGIT_ZERO + 2];
      Unescape(s, 0, 5) == Err(MalformedHex) && LegacyUnescape(s, 0, 5) == Ok([2])
  {
    CurrentNestedEscapeRejected();
    LegacyNestedEscapeDecoded();
  }

  /** The current variant hands `1\b2` to `parseInt` unchanged, which rejects it. */
  lemma CurrentNestedEscapeRejected()
    ensures Unescape([BACKSLASH, LOWER_U, DIGIT_ZERO + 1, BACKSLASH, LOWER_B, DIGIT_ZERO + 2], 0, 5) == Err(MalformedHex)
  {
    var s: seq<CodeUnit> := [BACKSLASH, LOWER_U, DIGIT_ZERO + 1, BACKSLASH, LOWER_B, DIGIT_ZERO + 2];
    var hex := s[2..6];
    assert hex[1] == BACKSLASH && !IsHexDigit(BACKSLASH);
    assert ParseHex(hex) == Err(MalformedHex);
  }

  /** The older variant first decodes `1\b2` to `2`, so the escape gives U+0002. */
  lemma LegacyNestedEscapeDecoded()
    ensures LegacyUnescape([BACKSLASH, LOWER_U, DIGIT_ZERO + 1, BACKSLASH, LOWER_B, DIGIT_ZERO + 2], 0, 5) == Ok([2])
  {
    var s: seq<CodeUnit> := [BACKSLASH, LOWER_U, DIGIT_ZERO + 1, BACKSLASH, LOWER_B, DIGIT_ZERO + 2];
    LegacyNestedDigits(s);
    var two: seq<CodeUnit> := [DIGIT_ZERO + 2];
    assert two[..0] == [] && HexValue(two) == 2;
    assert ParseHex(two) == Ok(2);
    assert AppendCodePoint(2) == Ok([2]);
    assert LegacyBuild(s, 6, 5, [2]) == Ok([2]);
    var none: seq<CodeUnit> := [];
    assert none + [2] == [2];
    assert LegacyBuild(s, 0, 5, none) == LegacyBuild(s, 6, 5, none + [2]);
  }

  /** Inside `\u1\b2`, the older variant decodes the four digit characters `1\b2` to `2`. */
  lemma LegacyNestedDigits(s: seq<CodeUnit>)
    requires s == [BACKSLASH, LOWER_U, DIGIT_ZERO + 1, BACKSLASH, LOWER_B, DIGIT_ZERO + 2]
    ensures LegacyUnescape(s, 2, 5) == Ok([DIGIT_ZERO + 2])
  {
    var none: seq<CodeUnit> := [];
    assert none + [DIGIT_ZERO + 2] == [DIGIT_ZERO + 2] && none + [DIGIT_ZERO + 1] == [DIGIT_ZERO + 1];
    assert LegacyBuild(s, 6, 5, [DIGIT_ZERO + 2]) == Ok([DIGIT_ZERO + 2]);
    assert LegacyBuild(s, 5, 5, none) == LegacyBuild(s, 6, 5, none + [DIGIT_ZERO + 2]);
    assert [DIGIT_ZERO + 1][..0] == none;
    assert LegacyBuild(s, 3, 5, [DIGIT_ZERO + 1]) == LegacyBuild(s, 5, 5, none);
    assert LegacyBuild(s, 2, 5, none) == LegacyBuild(s, 3, 5, none + [DIGIT_ZERO + 1]);
  }

  /** The value of three hex digits. */
  lemma HexValueOfThree(h: seq<CodeUnit>)
    requires |h| == 3 && AllHex(h)
    ensures HexValue(h) == (HexDigitValue(h[0]) * 16 + HexDigitValue(h[1])) * 16 + HexDigitValue(h[2])
  {
    assert h[..1][..0] == [] && h[..2][..1] == h[..1] && h[..2] == h[..|h| - 1];
    assert HexValue(h[..1]) == HexDigitValue(h[0]);
  }

  /**
   * `parseInt` accepts a sign, so a `\u` escape may spell a sign as its first digit:
   * `\u+041` decodes to `A`.
   */
  lemma PlusSignedCodePointEscape()
    ensures Unescape([BACKSLASH, LOWER_U, PLUS, DIGIT_ZERO, DIGIT_ZERO + 4, DIGIT_ZERO + 1], 0, 5) == Ok([0x41])
  {
    var s: seq<CodeUnit> := [BACKSLASH, LOWER_U, PLUS, DIGIT_ZERO, DIGIT_ZERO + 4, DIGIT_ZERO + 1];
    var digits := s[3..6];
    assert digits == [DIGIT_ZERO, DIGIT_ZERO + 4, DIGIT_ZERO + 1] && AllHex(digits);
    HexValueOfThree(digits);
    assert s[2..6][1..] == digits;
    assert ParseHex(s[2..6]) == Ok(0x41);
    assert UnescapeFrom(s, 0, 5) == Prepend([0x41], UnescapeFrom(s, 6, 5));
    assert UnescapeFrom(s, 6, 5) == Ok([]) && [0x41] + [] == [0x41];
  }

  /** Likewise `\u-000` decodes to U+0000: a minus sign on zero changes nothing. */
  lemma MinusSignedCodePointEscape()
    ensures Unescape([BACKSLASH, LOWER_U, MINUS, DIGIT_ZERO, DIGIT_ZERO, DIGIT_ZERO], 0, 5) == Ok([0])
  {
    var s: seq<CodeUnit> := [BACKSLASH, LOWER_U, MINUS, DIGIT_ZERO, DIGIT_ZERO, DIGIT_ZERO];
    var digits := s[3..6];
    assert digits == [DIGIT_ZERO, DIGIT_ZERO, DIGIT_ZERO] && AllHex(digits);
    HexValueOfThree(digits);
    assert s[2..6][1..] == digits;
    assert ParseHex(s[2..6]) == Ok(0);
    assert UnescapeFrom(s, 0, 5) == Prepend([0], UnescapeFrom(s, 6, 5));
    assert UnescapeFrom(s, 6, 5) == Ok([]) && [0] + [] == [0];
  }
}
