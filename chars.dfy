/** UTF-16 code units and the character classes the decoder consults. */
module Chars {

  /** One Java `char`: a UTF-16 code unit. */
  type CodeUnit = x: int | 0 <= x < 0x1_0000

  const NUL: CodeUnit := 0x00
  const BACKSPACE: CodeUnit := 0x08
  const TAB: CodeUnit := 0x09
  const LINE_FEED: CodeUnit := 0x0A
  const FORM_FEED: CodeUnit := 0x0C
  const CARRIAGE_RETURN: CodeUnit := 0x0D
  const SPACE: CodeUnit := 0x20
  const QUOTE: CodeUnit := 0x22
  const PLUS: CodeUnit := 0x2B
  const COMMA: CodeUnit := 0x2C
  const MINUS: CodeUnit := 0x2D
  const DOT: CodeUnit := 0x2E
  const SLASH: CodeUnit := 0x2F
  const DIGIT_ZERO: CodeUnit := 0x30
  const COLON: CodeUnit := 0x3A
  const UPPER_E: CodeUnit := 0x45
  const LEFT_BRACKET: CodeUnit := 0x5B
  const BACKSLASH: CodeUnit := 0x5C
  const RIGHT_BRACKET: CodeUnit := 0x5D
  const LOWER_A: CodeUnit := 0x61
  const LOWER_B: CodeUnit := 0x62
  const LOWER_E: CodeUnit := 0x65
  const LOWER_F: CodeUnit := 0x66
  const LOWER_L: CodeUnit := 0x6C
  const LOWER_N: CodeUnit := 0x6E
  const LOWER_R: CodeUnit := 0x72
  const LOWER_S: CodeUnit := 0x73
  const LOWER_T: CodeUnit := 0x74
  const LOWER_U: CodeUnit := 0x75
  const LEFT_BRACE: CodeUnit := 0x7B
  const RIGHT_BRACE: CodeUnit := 0x7D

  /** The spellings `null`, `true` and `false`. */
  const NULL_TEXT: seq<CodeUnit> := [LOWER_N, LOWER_U, LOWER_L, LOWER_L]
  const TRUE_TEXT: seq<CodeUnit> := [LOWER_T, LOWER_R, LOWER_U, LOWER_E]
  const FALSE_TEXT: seq<CodeUnit> := [LOWER_F, LOWER_A, LOWER_L, LOWER_S, LOWER_E]

  /**
   * Java's `Character.isWhitespace` on a `char`: the Unicode space, line and
   * paragraph separators other than the three no-break spaces, plus the
   * controls U+0009..U+000D and U+001C..U+001F.
   */
  predicate IsWhitespace(c: CodeUnit)
    ensures c == SPACE || c == TAB || c == LINE_FEED || c == CARRIAGE_RETURN ==> IsWhitespace(c)
    ensures c == 0x00A0 || c == 0x2007 || c == 0x202F ==> !IsWhitespace(c)
  {
    || 0x09 <= c <= 0x0D
    || 0x1C <= c <= 0x20
    || c == 0x1680
    || 0x2000 <= c <= 0x2006
    || 0x2008 <= c <= 0x200A
    || c == 0x2028 || c == 0x2029
    || c == 0x205F || c == 0x3000
  }

  /** `Character.isDigit`, restricted to the ASCII digits. */
  predicate IsDigit(c: CodeUnit)
    ensures IsDigit(c) ==> !IsWhitespace(c) && !IsLetter(c)
  {
    0x30 <= c <= 0x39
  }

  /** `Character.isLetter`, restricted to the ASCII letters. */
  predicate IsLetter(c: CodeUnit)
    ensures IsLetter(c) ==> !IsWhitespace(c)
    ensures IsLetter(c) ==> c != QUOTE && c != COMMA && c != COLON && c != RIGHT_BRACE && c != RIGHT_BRACKET
  {
    0x41 <= c <= 0x5A || 0x61 <= c <= 0x7A
  }

  /** A character `readNumber` takes into a number span: a digit or one of `+ - . e E`. */
  predicate IsNumberChar(c: CodeUnit)
    ensures IsNumberChar(c) ==> !IsWhitespace(c)
    ensures IsNumberChar(c) ==> c != QUOTE && c != COMMA && c != COLON && c != RIGHT_BRACE && c != RIGHT_BRACKET
    ensures IsNumberChar(c) && IsLetter(c) ==> c == LOWER_E || c == UPPER_E
  {
    IsDigit(c) || c == PLUS || c == MINUS || c == DOT || c == LOWER_E || c == UPPER_E
  }

  function DigitValue(c: CodeUnit): (d: nat)
    requires IsDigit(c)
    ensures d < 10
  {
    c - 0x30
  }

  /** `Character.digit(c, 16)`, restricted to ASCII: the value of a hex digit. */
  predicate IsHexDigit(c: CodeUnit)
    ensures IsDigit(c) ==> IsHexDigit(c)
    ensures IsHexDigit(c) ==> !IsWhitespace(c) && (IsDigit(c) || IsLetter(c))
  {
    IsDigit(c) || 0x41 <= c <= 0x46 || 0x61 <= c <= 0x66
  }

  function HexDigitValue(c: CodeUnit): (d: nat)
    requires IsHexDigit(c)
    ensures d < 16
    ensures IsDigit(c) <==> d < 10
    ensures IsDigit(c) ==> d == DigitValue(c)
    ensures 0x61 <= c <= 0x66 ==> d == HexDigitValue(c - 0x20)
  {
    if IsDigit(c) then c - 0x30
    else if c <= 0x46 then c - 0x41 + 10
    else c - 0x61 + 10
  }
}
