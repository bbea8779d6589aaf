/**
 * The character scanner: stateless index arithmetic over the immutable buffer.
 * Each operation is a specification function plus the loop the source runs,
 * proved to compute it. Members named `Legacy...` model the older variant.
 */
module Scanner {
  import opened Chars
  import opened Values

  // ---- next(int): skip whitespace ----

  ghost predicate AllWhitespace(s: seq<CodeUnit>, lo: int, hi: int)
    requires hi <= |s|
  {
    forall i | 0 <= lo <= i < hi :: IsWhitespace(s[i])
  }

  /** The least index `>= from` whose character is not whitespace; none means end of input. */
  function SkipWhitespace(s: seq<CodeUnit>, from: nat): (r: Result<nat>)
    ensures r.Ok? ==> from <= r.value < |s| && !IsWhitespace(s[r.value]) && AllWhitespace(s, from, r.value)
    ensures r.Err? ==> r.error == EndOfInput && AllWhitespace(s, from, |s|)
    decreases |s| - from
  {
    if from >= |s| then Err(EndOfInput)
    else if !IsWhitespace(s[from]) then Ok(from)
    else SkipWhitespace(s, from + 1)
  }

  /** `next(int from)`. */
  method Next(chars: seq<CodeUnit>, from: nat) returns (r: Result<nat>)
    ensures r == SkipWhitespace(chars, from)
  {
    var i := from;
    while i < |chars|
      invariant from <= i
      invariant SkipWhitespace(chars, i) == SkipWhitespace(chars, from)
      decreases |chars| - i
    {
      if !IsWhitespace(chars[i]) {
        return Ok(i);
      }
      i := i + 1;
    }
    return Err(EndOfInput);
  }

  /** The first non-whitespace character after a whitespace stretch is the one found. */
  lemma SkipWhitespaceFinds(s: seq<CodeUnit>, from: nat, k: nat)
    requires from <= k < |s| && AllWhitespace(s, from, k) && !IsWhitespace(s[k])
    ensures SkipWhitespace(s, from) == Ok(k)
  {
  }

  // ---- next(char, int): the next unescaped occurrence, current variant ----

  /**
   * Whether the scan started at `from` treats index `i` as escaped: the escape
   * state toggles with every backslash, so only an unescaped backslash escapes.
   */
  predicate Escaped(s: seq<CodeUnit>, from: nat, i: nat)
    requires from <= i <= |s|
    decreases i - from
  {
    i > from && s[i - 1] == BACKSLASH && !Escaped(s, from, i - 1)
  }

  /** The length of the run of backslashes that ends just before `i`, not reaching before `from`. */
  function BackslashRun(s: seq<CodeUnit>, from: nat, i: nat): (n: nat)
    requires from <= i <= |s|
    ensures n <= i - from
    decreases i - from
  {
    if i > from && s[i - 1] == BACKSLASH then 1 + BackslashRun(s, from, i - 1) else 0
  }

  /** An index is escaped exactly when an odd number of backslashes precede it. */
  lemma {:induction false} EscapedIffOddRun(s: seq<CodeUnit>, from: nat, i: nat)
    requires from <= i <= |s|
    ensures Escaped(s, from, i) <==> BackslashRun(s, from, i) % 2 == 1
    decreases i - from
  {
    if i > from && s[i - 1] == BACKSLASH {
      EscapedIffOddRun(s, from, i - 1);
    }
  }

  predicate UnescapedAt(s: seq<CodeUnit>, c: CodeUnit, from: nat, i: nat)
    requires from <= i < |s|
  {
    s[i] == c && !Escaped(s, from, i)
  }

  function ScanUnescaped(s: seq<CodeUnit>, c: CodeUnit, from: nat, i: nat): (r: Result<nat>)
    requires from <= i
    ensures r.Ok? ==> i <= r.value < |s| && UnescapedAt(s, c, from, r.value)
    ensures r.Ok? ==> forall k | i <= k < r.value :: !UnescapedAt(s, c, from, k)
    ensures r.Err? ==> r.error == EndOfInput && forall k | i <= k < |s| :: !UnescapedAt(s, c, from, k)
    decreases |s| - i
  {
    if i >= |s| then Err(EndOfInput)
    else if UnescapedAt(s, c, from, i) then Ok(i)
    else ScanUnescaped(s, c, from, i + 1)
  }

  /**
   * The least index `>= from` holding `c` that is not escaped; none means end of input.
   */
  function FindUnescaped(s: seq<CodeUnit>, c: CodeUnit, from: nat): (r: Result<nat>)
    ensures r.Ok? ==> from <= r.value < |s| && s[r.value] == c && !Escaped(s, from, r.value)
    ensures r.Ok? ==> forall k | from <= k < r.value :: !UnescapedAt(s, c, from, k)
    ensures r.Err? ==> r.error == EndOfInput && forall k | from <= k < |s| :: !UnescapedAt(s, c, from, k)
  {
    ScanUnescaped(s, c, from, from)
  }

  /** `next(char c, int from)` of the current variant, with its toggling escape flag. */
  method NextUnescaped(chars: seq<CodeUnit>, c: CodeUnit, from: nat) returns (r: Result<nat>)
    ensures r == FindUnescaped(chars, c, from)
  {
    var prev := NUL;
    var isEscaped := false;
    var i := from;
    while i < |chars|
      invariant from <= i
      invariant i == from ==> prev == NUL && !isEscaped
      invariant from < i <= |chars| ==> prev == chars[i - 1] && isEscaped == Escaped(chars, from, i - 1)
      invariant ScanUnescaped(chars, c, from, i) == FindUnescaped(chars, c, from)
      decreases |chars| - i
    {
      isEscaped := prev == BACKSLASH && !isEscaped;
      var current := chars[i];
      if !isEscaped && c == current {
        return Ok(i);
      }
      prev := current;
      i := i + 1;
    }
    return Err(EndOfInput);
  }

  // ---- next(char, int) of the older variant: no toggling ----

  /** The older scan's test: `c` not immediately preceded by a backslash inside the scan. */
  predicate LegacyUnescapedAt(s: seq<CodeUnit>, c: CodeUnit, from: nat, i: nat)
    requires from <= i < |s|
  {
    s[i] == c && !(i > from && s[i - 1] == BACKSLASH)
  }

  function LegacyScanUnescaped(s: seq<CodeUnit>, c: CodeUnit, from: nat, i: nat): (r: Result<nat>)
    requires from <= i
    ensures r.Ok? ==> i <= r.value < |s| && LegacyUnescapedAt(s, c, from, r.value)
    ensures r.Ok? ==> forall k | i <= k < r.value :: !LegacyUnescapedAt(s, c, from, k)
    ensures r.Err? ==> r.error == EndOfInput && forall k | i <= k < |s| :: !LegacyUnescapedAt(s, c, from, k)
    decreases |s| - i
  {
    if i >= |s| then Err(EndOfInput)
    else if LegacyUnescapedAt(s, c, from, i) then Ok(i)
    else LegacyScanUnescaped(s, c, from, i + 1)
  }

  /** The least index `>= from` holding `c` whose predecessor in the scan is not a backslash. */
  function LegacyFindUnescaped(s: seq<CodeUnit>, c: CodeUnit, from: nat): (r: Result<nat>)
    ensures r.Ok? ==> from <= r.value < |s| && s[r.value] == c
    ensures r.Ok? ==> r.value > from ==> s[r.value - 1] != BACKSLASH
    ensures r.Ok? ==> forall k | from <= k < r.value :: !LegacyUnescapedAt(s, c, from, k)
    ensures r.Err? ==> r.error == EndOfInput && forall k | from <= k < |s| :: !LegacyUnescapedAt(s, c, from, k)
  {
    LegacyScanUnescaped(s, c, from, from)
  }

  /** `next(char c, int from)` of the older variant. */
  method LegacyNextUnescaped(chars: seq<CodeUnit>, c: CodeUnit, from: nat) returns (r: Result<nat>)
    ensures r == LegacyFindUnescaped(chars, c, from)
  {
    var prev := NUL;
    var i := from;
    while i < |chars|
      invariant from <= i
      invariant i == from ==> prev == NUL
      invariant from < i <= |chars| ==> prev == chars[i - 1]
      invariant LegacyScanUnescaped(chars, c, from, i) == LegacyFindUnescaped(chars, c, from)
      decreases |chars| - i
    {
      var current := chars[i];
      if BACKSLASH != prev && c == current {
        return Ok(i);
      }
      prev := chars[i];
      i := i + 1;
    }
    return Err(EndOfInput);
  }

  /**
   * Where the two scans differ: after an escaped backslash, the older scan still
   * treats the next character as escaped. In `"\\"` the current scan finds the
   * closing quote and the older one runs off the end.
   */
  lemma EscapedBackslashThenQuote()
    ensures FindUnescaped([QUOTE, BACKSLASH, BACKSLASH, QUOTE], QUOTE, 1) == Ok(3)
    ensures LegacyFindUnescaped([QUOTE, BACKSLASH, BACKSLASH, QUOTE], QUOTE, 1) == Err(EndOfInput)
  {
    var s := [QUOTE, BACKSLASH, BACKSLASH, QUOTE];
    assert Escaped(s, 1, 2);
    assert ScanUnescaped(s, QUOTE, 1, 3) == Ok(3);
    assert ScanUnescaped(s, QUOTE, 1, 1) == ScanUnescaped(s, QUOTE, 1, 3);
    assert !LegacyUnescapedAt(s, QUOTE, 1, 3);
  }

  /**
   * When `c` does not occur between `from` and `k` and the character before `k`
   * is not a backslash, both variants find the occurrence at `k`.
   */
  lemma FindsPlainOccurrence(s: seq<CodeUnit>, c: CodeUnit, from: nat, k: nat)
    requires from <= k < |s| && s[k] == c
    requires forall j | from <= j < k :: s[j] != c
    requires k == from || s[k - 1] != BACKSLASH
    ensures FindUnescaped(s, c, from) == Ok(k)
    ensures LegacyFindUnescaped(s, c, from) == Ok(k)
  {
    assert UnescapedAt(s, c, from, k) && LegacyUnescapedAt(s, c, from, k);
  }

  // ---- readNumber ----

  /** The first index `>= from` that is not a number character, or the end of the buffer. */
  function NumberRunEnd(s: seq<CodeUnit>, from: nat): (e: nat)
    ensures from <= e
    ensures e <= |s| || e == from
    ensures e < |s| ==> !IsNumberChar(s[e])
    ensures forall i | from <= i < e :: i < |s| && IsNumberChar(s[i])
    decreases |s| - from
  {
    if from >= |s| || !IsNumberChar(s[from]) then from else NumberRunEnd(s, from + 1)
  }

  /** `readNumber` of the current variant: the last index of the number run, `from - 1` when it is empty. */
  method ReadNumber(chars: seq<CodeUnit>, from: nat) returns (last: int)
    ensures last == NumberRunEnd(chars, from) - 1
  {
    var i := from;
    while i < |chars| && IsNumberChar(chars[i])
      invariant from <= i
      invariant NumberRunEnd(chars, i) == NumberRunEnd(chars, from)
      decreases |chars| - i
    {
      i := i + 1;
    }
    return i - 1;
  }

  /** The older `readNumber`: the same run, but an empty run is an invalid number. */
  function LegacyNumberEnd(s: seq<CodeUnit>, from: nat): (r: Result<nat>)
    requires from < |s|
    ensures r.Ok? <==> IsNumberChar(s[from])
    ensures r.Ok? ==> r.value == NumberRunEnd(s, from) - 1
    ensures r.Err? ==> r.error == InvalidNumber
  {
    var last := NumberRunEnd(s, from) - 1;
    if last < from then Err(InvalidNumber) else Ok(last)
  }

  /** `readNumber` of the older variant, with its break at the end of the buffer. */
  method LegacyReadNumber(chars: seq<CodeUnit>, from: nat) returns (r: Result<nat>)
    requires from < |chars|
    ensures r == LegacyNumberEnd(chars, from)
  {
    var numberEnd := from;
    while IsNumberChar(chars[numberEnd])
      invariant from <= numberEnd < |chars|
      invariant NumberRunEnd(chars, numberEnd) == NumberRunEnd(chars, from)
      decreases |chars| - numberEnd
    {
      numberEnd := numberEnd + 1;
      if numberEnd == |chars| {
        break;
      }
    }
    numberEnd := numberEnd - 1;
    if numberEnd < from {
      return Err(InvalidNumber);
    }
    return Ok(numberEnd);
  }

  // ---- readLiteral ----

  /** The first index `>= from` that is not a letter, or the end of the buffer. */
  function LetterRunEnd(s: seq<CodeUnit>, from: nat): (e: nat)
    requires from <= |s|
    ensures from <= e <= |s|
    ensures e < |s| ==> !IsLetter(s[e])
    ensures forall i | from <= i < e :: IsLetter(s[i])
    decreases |s| - from
  {
    if from == |s| || !IsLetter(s[from]) then from else LetterRunEnd(s, from + 1)
  }

  /**
   * `readLiteral`'s result: the last index of the letter run at `from` when the
   * run spells `expected`, an invalid literal otherwise.
   */
  function LiteralEnd(s: seq<CodeUnit>, from: nat, expected: seq<CodeUnit>): (r: Result<int>)
    requires from <= |s|
    ensures r.Ok? <==> s[from..LetterRunEnd(s, from)] == expected
    ensures r.Ok? ==> r.value == from + |expected| - 1
    ensures r.Err? ==> r.error == InvalidLiteral
  {
    var to := LetterRunEnd(s, from);
    if s[from..to] == expected then Ok(to - 1) else Err(InvalidLiteral)
  }

  /**
   * A literal of letters is accepted exactly when the buffer spells it at `from`
   * and the next character, if any, is not a letter.
   */
  lemma LiteralEndIff(s: seq<CodeUnit>, from: nat, expected: seq<CodeUnit>)
    requires from <= |s|
    requires |expected| > 0 && forall i | 0 <= i < |expected| :: IsLetter(expected[i])
    ensures LiteralEnd(s, from, expected).Ok? <==>
      && from + |expected| <= |s|
      && s[from..from + |expected|] == expected
      && (from + |expected| == |s| || !IsLetter(s[from + |expected|]))
  {
  }

  /** `readLiteral`. */
  method ReadLiteral(chars: seq<CodeUnit>, from: nat, expected: seq<CodeUnit>) returns (r: Result<int>)
    requires from <= |chars|
    ensures r == LiteralEnd(chars, from, expected)
  {
    var to := from;
    while to < |chars| && IsLetter(chars[to])
      invariant from <= to <= |chars|
      invariant LetterRunEnd(chars, to) == LetterRunEnd(chars, from)
      decreases |chars| - to
    {
      to := to + 1;
    }
    var literal := chars[from..to];
    if literal != expected {
      return Err(InvalidLiteral);
    }
    return Ok(to - 1);
  }
}
