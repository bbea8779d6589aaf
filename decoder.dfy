/**
 * The recursive-descent decoder: `readValue`, `readObjectValue` and
 * `readArrayValue`, for both variants. Each read returns the decoded value
 * together with the index of its last character; callers resume one past it.
 * The specification functions come first, then the methods that run the
 * source's do-while loops and are proved to compute them.
 */
module Decoder {
  import opened Chars
  import opened Values
  import opened Scanner
  import opened Strings
  import opened Numbers

  /** `Current` is the library under src/main; `Legacy` is the older standalone file. */
  datatype Variant = Current | Legacy

  /** A decoded value and the index of its last character. */
  datatype Read = Read(value: Value, last: nat)

  // ---- The pieces that differ between the variants ----

  /** `next(char c, int from)`. */
  function FindChar(v: Variant, s: seq<CodeUnit>, c: CodeUnit, from: nat): (r: Result<nat>)
    ensures r.Ok? ==> from <= r.value < |s| && s[r.value] == c
    ensures r.Err? ==> r.error == EndOfInput
  {
    if v == Current then FindUnescaped(s, c, from) else LegacyFindUnescaped(s, c, from)
  }

  /** `parseString(from, to)` or `buildString(from, to)`. */
  function DecodeString(v: Variant, s: seq<CodeUnit>, from: int, last: int): (r: Result<seq<CodeUnit>>)
    ensures r == Err(OutOfBounds) <==> from < 0 || last >= |s|
  {
    if v == Current then Unescape(s, from, last) else LegacyUnescape(s, from, last)
  }

  /**
   * The literal cases of `readValue`: the current variant checks the spelling with
   * `readLiteral`; the older one skips a fixed `|text| - 1` characters unchecked.
   */
  function LiteralLast(v: Variant, s: seq<CodeUnit>, from: nat, text: seq<CodeUnit>): (r: Result<int>)
    requires from < |s|
    ensures r.Ok? ==> r.value == from + |text| - 1
    ensures v == Legacy ==> r.Ok?
  {
    if v == Current then LiteralEnd(s, from, text) else Ok(from + |text| - 1)
  }

  /** The default case of `readValue`: `readNumber`, then `parseNumber` on the span. */
  function NumberRead(v: Variant, s: seq<CodeUnit>, fit: Decimal -> DoubleFit, from: nat): (r: Result<Read>)
    requires from < |s|
    ensures r.Ok? ==> from <= r.value.last < |s| && r.value.last == NumberRunEnd(s, from) - 1
    ensures r.Err? ==> r.error == InvalidNumber
  {
    if v == Current then
      var end := NumberRunEnd(s, from);
      var n :- ParseNumberSpan(s[from..end], fit);
      Ok(Read(n, end - 1))
    else
      var last :- LegacyNumberEnd(s, from);
      // buildString on a run of number characters cannot fail: it has no backslash
      LegacyUnescapeWithoutBackslash(s, from, last);
      var n :- LegacyParseNumberSpan(LegacyUnescape(s, from, last).value, fit);
      Ok(Read(n, last))
  }

  // ---- The decoder as functions ----

  /** The `"` case of `readValue`: the string up to the next unescaped quote. */
  function StringRead(v: Variant, s: seq<CodeUnit>, from: nat): (r: Result<Read>)
    ensures r.Ok? ==> from < r.value.last < |s| && s[r.value.last] == QUOTE && r.value.value.Str?
    ensures r.Err? ==> r.error != OutOfBounds
  {
    var closing :- FindChar(v, s, QUOTE, from + 1);
    var text :- DecodeString(v, s, from + 1, closing - 1);
    Ok(Read(Str(text), closing))
  }

  /** The `n`, `t` and `f` cases of `readValue`. */
  function LiteralRead(v: Variant, s: seq<CodeUnit>, from: nat, text: seq<CodeUnit>, value: Value): (r: Result<Read>)
    requires from < |s| && |text| > 0
    ensures r.Ok? ==> r == Ok(Read(value, from + |text| - 1))
    ensures r.Err? ==> v == Current && r.error == InvalidLiteral
  {
    var last :- LiteralLast(v, s, from, text);
    Ok(Read(value, last))
  }

  /** The cases of `readValue` other than `{` and `[`: a string, a literal or a number. */
  function ReadScalar(v: Variant, s: seq<CodeUnit>, fit: Decimal -> DoubleFit, from: nat): (r: Result<Read>)
    requires from < |s|
    ensures r.Ok? ==> from <= r.value.last
    ensures r.Ok? && v == Current ==> r.value.last < |s|
  {
    var c := s[from];
    if c == QUOTE then StringRead(v, s, from)
    else if c == LOWER_N then LiteralRead(v, s, from, NULL_TEXT, Null)
    else if c == LOWER_T then LiteralRead(v, s, from, TRUE_TEXT, Bool(true))
    else if c == LOWER_F then LiteralRead(v, s, from, FALSE_TEXT, Bool(false))
    else NumberRead(v, s, fit, from)
  }

  /** `readValue(consumer, from)`: dispatch on the character at `from`. */
  function ReadValue(v: Variant, s: seq<CodeUnit>, fit: Decimal -> DoubleFit, from: nat): (r: Result<Read>)
    ensures r.Ok? ==> from <= r.value.last
    ensures r.Ok? && v == Current ==> r.value.last < |s|
    ensures from >= |s| ==> r == Err(IndexOutOfBounds)
    decreases |s| - from, 3
  {
    if from >= |s| then Err(IndexOutOfBounds)
    else if s[from] == LEFT_BRACE then ReadObject(v, s, fit, from)
    else if s[from] == LEFT_BRACKET then ReadArray(v, s, fit, from)
    else ReadScalar(v, s, fit, from)
  }

  /** `readObjectValue(map, from)`, `from` being the index of `{`. */
  function ReadObject(v: Variant, s: seq<CodeUnit>, fit: Decimal -> DoubleFit, from: nat): (r: Result<Read>)
    requires from < |s|
    ensures r.Ok? ==> from < r.value.last < |s| && r.value.value.Obj?
    decreases |s| - from, 2
  {
    var first :- SkipWhitespace(s, from + 1);
    if s[first] == RIGHT_BRACE then Ok(Read(Obj(map[]), first))
    else ObjectFields(v, s, fit, from, map[])
  }

  /**
   * The key part of the loop body of `readObjectValue`: the key is the quoted
   * text after `delim`, and the colon is searched for from the key's last
   * character (from the opening quote when the key is empty). The result is
   * the key and the colon's index.
   */
  function FieldKey(v: Variant, s: seq<CodeUnit>, delim: nat): (r: Result<(Key, nat)>)
    ensures r.Ok? ==> delim <= r.value.1 < |s| && s[r.value.1] == COLON
  {
    var keyQuote :- FindChar(v, s, QUOTE, delim);
    var closing :- FindChar(v, s, QUOTE, keyQuote + 1);
    var key :- DecodeString(v, s, keyQuote + 1, closing - 1);
    var colon :- FindChar(v, s, COLON, closing - 1);
    Ok((key, colon))
  }

  /**
   * The body of the do-while loop of `readObjectValue`: the key, the value that
   * starts after the colon, and the index of the first non-whitespace character
   * after the value.
   */
  function ObjectField(v: Variant, s: seq<CodeUnit>, fit: Decimal -> DoubleFit, delim: nat): (r: Result<(Key, Value, nat)>)
    requires delim < |s|
    ensures r.Ok? ==> delim < r.value.2 < |s| && !IsWhitespace(s[r.value.2])
    decreases |s| - delim, 0
  {
    var key :- FieldKey(v, s, delim);
    var item :- ValueAfter(v, s, fit, key.1);
    Ok((key.0, item.0, item.1))
  }

  /**
   * The do-while loop of `readObjectValue` from `delim` on, with the fields read
   * so far: it goes on while a comma follows the value; a later duplicate key
   * replaces the earlier value.
   */
  function ObjectFields(v: Variant, s: seq<CodeUnit>, fit: Decimal -> DoubleFit, delim: nat, fields: map<Key, Value>): (r: Result<Read>)
    requires delim < |s|
    ensures r.Ok? ==> delim < r.value.last < |s| && r.value.value.Obj?
    ensures r.Ok? ==> fields.Keys <= r.value.value.fields.Keys
    ensures r.Ok? ==> s[r.value.last] != COMMA
    decreases |s| - delim, 1
  {
    var field :- ObjectField(v, s, fit, delim);
    var fields' := fields[field.0 := field.1];
    if s[field.2] == COMMA then ObjectFields(v, s, fit, field.2, fields')
    else Ok(Read(Obj(fields'), field.2))
  }

  /** `readArrayValue(list, from)`, `from` being the index of `[`. */
  function ReadArray(v: Variant, s: seq<CodeUnit>, fit: Decimal -> DoubleFit, from: nat): (r: Result<Read>)
    requires from < |s|
    ensures r.Ok? ==> from < r.value.last < |s| && r.value.value.Arr?
    decreases |s| - from, 2
  {
    var first :- SkipWhitespace(s, from + 1);
    if s[first] == RIGHT_BRACKET then Ok(Read(Arr([]), first))
    else ArrayElements(v, s, fit, from, [])
  }

  /**
   * The value that starts at `start`, and the index of the first non-whitespace
   * character after it.
   */
  function ValueThenNext(v: Variant, s: seq<CodeUnit>, fit: Decimal -> DoubleFit, start: nat): (r: Result<(Value, nat)>)
    ensures r.Ok? ==> start < r.value.1 < |s| && !IsWhitespace(s[r.value.1])
    decreases |s| - start, 4
  {
    var item :- ReadValue(v, s, fit, start);
    var next :- SkipWhitespace(s, item.last + 1);
    Ok((item.value, next))
  }

  /**
   * The value that starts at the first non-whitespace character after `at`, and
   * the index of the first non-whitespace character after that value: the body
   * of the do-while loop of `readArrayValue`, and the value part of the body of
   * `readObjectValue`'s.
   */
  function ValueAfter(v: Variant, s: seq<CodeUnit>, fit: Decimal -> DoubleFit, at: nat): (r: Result<(Value, nat)>)
    requires at < |s|
    ensures r.Ok? ==> at < r.value.1 < |s| && !IsWhitespace(s[r.value.1])
    decreases |s| - at, 0
  {
    var start :- SkipWhitespace(s, at + 1);
    ValueThenNext(v, s, fit, start)
  }

  /** The do-while loop of `readArrayValue`: elements are appended in source order. */
  function ArrayElements(v: Variant, s: seq<CodeUnit>, fit: Decimal -> DoubleFit, delim: nat, elems: seq<Value>): (r: Result<Read>)
    requires delim < |s|
    ensures r.Ok? ==> delim < r.value.last < |s| && r.value.value.Arr?
    ensures r.Ok? ==> |elems| < |r.value.value.elems| && r.value.value.elems[..|elems|] == elems
    ensures r.Ok? ==> s[r.value.last] != COMMA
    decreases |s| - delim, 1
  {
    var element :- ValueAfter(v, s, fit, delim);
    if s[element.1] == COMMA then ArrayElements(v, s, fit, element.1, elems + [element.0])
    else Ok(Read(Arr(elems + [element.0]), element.1))
  }

  /** `readInternal`: the value that starts at index 0; what follows it is not looked at. */
  function Decode(v: Variant, s: seq<CodeUnit>, fit: Decimal -> DoubleFit): (r: Result<Value>)
    ensures s == [] ==> r == Err(IndexOutOfBounds)
  {
    var item :- ReadValue(v, s, fit, 0);
    Ok(item.value)
  }

  // ---- The decoder as the source runs it ----

  /** `next(char c, int from)` of the variant. */
  method NextChar(v: Variant, chars: seq<CodeUnit>, c: CodeUnit, from: nat) returns (r: Result<nat>)
    ensures r == FindChar(v, chars, c, from)
  {
    if v == Current {
      r := NextUnescaped(chars, c, from);
    } else {
      r := LegacyNextUnescaped(chars, c, from);
    }
  }

  /** `parseString` or `buildString` of the variant. */
  method BuildString(v: Variant, chars: seq<CodeUnit>, from: int, last: int) returns (r: Result<seq<CodeUnit>>)
    ensures r == DecodeString(v, chars, from, last)
  {
    if v == Current {
      r := ParseString(chars, from, last);
    } else {
      r := LegacyBuildString(chars, from, last);
    }
  }

  /** The `"` case of `readValue`. */
  method ReadStringAt(v: Variant, chars: seq<CodeUnit>, from: nat) returns (r: Result<Read>)
    ensures r == StringRead(v, chars, from)
  {
    var closingQuote :- NextChar(v, chars, QUOTE, from + 1);
    var text :- BuildString(v, chars, from + 1, closingQuote - 1);
    return Ok(Read(Str(text), closingQuote));
  }

  /** The `n`, `t` and `f` cases of `readValue`: `readLiteral`, or a fixed skip in the older variant. */
  method ReadLiteralAt(v: Variant, chars: seq<CodeUnit>, from: nat, text: seq<CodeUnit>, value: Value) returns (r: Result<Read>)
    requires from < |chars| && |text| > 0
    ensures r == LiteralRead(v, chars, from, text, value)
  {
    var last;
    if v == Current {
      last :- ReadLiteral(chars, from, text);
    } else {
      last := from + |text| - 1;
    }
    return Ok(Read(value, last));
  }

  /** The default case of `readValue`: `readNumber`, then `parseNumber`. */
  method ReadNumberAt(v: Variant, chars: seq<CodeUnit>, fit: Decimal -> DoubleFit, from: nat) returns (r: Result<Read>)
    requires from < |chars|
    ensures r == NumberRead(v, chars, fit, from)
  {
    if v == Current {
      var last := ReadNumber(chars, from);
      var n :- ParseNumberSpan(chars[from..last + 1], fit);
      r := Ok(Read(n, last));
    } else {
      var last :- LegacyReadNumber(chars, from);
      var text := LegacyBuildString(chars, from, last);
      LegacyUnescapeWithoutBackslash(chars, from, last);
      var n :- LegacyParseNumberSpan(text.value, fit);
      r := Ok(Read(n, last));
    }
  }

  /** The string, literal and number cases of `readValue`. */
  method ReadScalarAt(v: Variant, chars: seq<CodeUnit>, fit: Decimal -> DoubleFit, from: nat) returns (r: Result<Read>)
    requires from < |chars|
    ensures r == ReadScalar(v, chars, fit, from)
  {
    var c := chars[from];
    if c == QUOTE {
      r := ReadStringAt(v, chars, from);
    } else if c == LOWER_N {
      r := ReadLiteralAt(v, chars, from, NULL_TEXT, Null);
    } else if c == LOWER_T {
      r := ReadLiteralAt(v, chars, from, TRUE_TEXT, Bool(true));
    } else if c == LOWER_F {
      r := ReadLiteralAt(v, chars, from, FALSE_TEXT, Bool(false));
    } else {
      r := ReadNumberAt(v, chars, fit, from);
    }
  }

  /** `readValue`. */
  method ReadValueAt(v: Variant, chars: seq<CodeUnit>, fit: Decimal -> DoubleFit, from: nat) returns (r: Result<Read>)
    ensures r == ReadValue(v, chars, fit, from)
    decreases |chars| - from, 3
  {
    if from >= |chars| {
      r := Err(IndexOutOfBounds);
    } else if chars[from] == LEFT_BRACE {
      r := ReadObjectValue(v, chars, fit, from);
    } else if chars[from] == LEFT_BRACKET {
      r := ReadArrayValue(v, chars, fit, from);
    } else {
      r := ReadScalarAt(v, chars, fit, from);
    }
  }

  /** The key part of `readObjectValue`'s loop body. */
  method ReadKey(v: Variant, chars: seq<CodeUnit>, delim: nat) returns (r: Result<(Key, nat)>)
    ensures r == FieldKey(v, chars, delim)
  {
    var keyQuote :- NextChar(v, chars, QUOTE, delim);
    var closing :- NextChar(v, chars, QUOTE, keyQuote + 1);
    var key :- BuildString(v, chars, keyQuote + 1, closing - 1);
    var colon :- NextChar(v, chars, COLON, closing - 1);
    return Ok((key, colon));
  }

  /** One turn of `readObjectValue`'s loop body. */
  method ReadField(v: Variant, chars: seq<CodeUnit>, fit: Decimal -> DoubleFit, delim: nat) returns (r: Result<(Key, Value, nat)>)
    requires delim < |chars|
    ensures r == ObjectField(v, chars, fit, delim)
    decreases |chars| - delim, 0
  {
    var key :- ReadKey(v, chars, delim);
    var item :- ReadValueAfter(v, chars, fit, key.1);
    return Ok((key.0, item.0, item.1));
  }

  /** A value at `start`, and the first non-whitespace character after it. */
  method ReadValueThenNext(v: Variant, chars: seq<CodeUnit>, fit: Decimal -> DoubleFit, start: nat) returns (r: Result<(Value, nat)>)
    ensures r == ValueThenNext(v, chars, fit, start)
    decreases |chars| - start, 4
  {
    var item := ReadValueAt(v, chars, fit, start);
    if item.Err? {
      return Err(item.error);
    }
    var next := Next(chars, item.value.last + 1);
    if next.Err? {
      return Err(next.error);
    }
    return Ok((item.value.value, next.value));
  }

  /** A value after `at`, and the first non-whitespace character after it. */
  method ReadValueAfter(v: Variant, chars: seq<CodeUnit>, fit: Decimal -> DoubleFit, at: nat) returns (r: Result<(Value, nat)>)
    requires at < |chars|
    ensures r == ValueAfter(v, chars, fit, at)
    decreases |chars| - at, 0
  {
    var start :- Next(chars, at + 1);
    r := ReadValueThenNext(v, chars, fit, start);
  }

  /** `readObjectValue`: the map is filled field by field in the do-while loop. */
  method ReadObjectValue(v: Variant, chars: seq<CodeUnit>, fit: Decimal -> DoubleFit, from: nat) returns (r: Result<Read>)
    requires from < |chars|
    ensures r == ReadObject(v, chars, fit, from)
    decreases |chars| - from, 2
  {
    var first :- Next(chars, from + 1);
    if chars[first] == RIGHT_BRACE {
      return Ok(Read(Obj(map[]), first));
    }
    var fields: map<Key, Value> := map[];
    var delim := from;
    while true
      invariant from <= delim < |chars|
      invariant ObjectFields(v, chars, fit, delim, fields) == ReadObject(v, chars, fit, from)
      decreases |chars| - delim
    {
      var field :- ReadField(v, chars, fit, delim);
      fields := fields[field.0 := field.1];
      if chars[field.2] != COMMA {
        return Ok(Read(Obj(fields), field.2));
      }
      delim := field.2;
    }
  }

  /** `readArrayValue`: the list is filled element by element in the do-while loop. */
  method ReadArrayValue(v: Variant, chars: seq<CodeUnit>, fit: Decimal -> DoubleFit, from: nat) returns (r: Result<Read>)
    requires from < |chars|
    ensures r == ReadArray(v, chars, fit, from)
    decreases |chars| - from, 2
  {
    var first :- Next(chars, from + 1);
    if chars[first] == RIGHT_BRACKET {
      return Ok(Read(Arr([]), first));
    }
    var elems: seq<Value> := [];
    var delim := from;
    while true
      invariant from <= delim < |chars|
      invariant ArrayElements(v, chars, fit, delim, elems) == ReadArray(v, chars, fit, from)
      decreases |chars| - delim
    {
      var element :- ReadValueAfter(v, chars, fit, delim);
      elems := elems + [element.0];
      if chars[element.1] != COMMA {
        return Ok(Read(Arr(elems), element.1));
      }
      delim := element.1;
    }
  }
}
