/**
 * What the decoder does with whole documents and with the pieces they are made
 * of: containers, strings, integers and literals, in both variants.
 */
module DecoderProperties {
  import opened Chars
  import opened Values
  import opened Scanner
  import opened Strings
  import opened Numbers
  import opened Decoder

  /** Text that both scanners copy unchanged: no quote and no backslash. */
  predicate PlainText(t: seq<CodeUnit>) {
    forall k | 0 <= k < |t| :: t[k] != QUOTE && t[k] != BACKSLASH
  }

  // ---- Runs ----

  /** The number run ends at the first index that is not a number character. */
  lemma {:induction false} NumberRunEndAt(s: seq<CodeUnit>, from: nat, e: nat)
    requires from <= e <= |s|
    requires forall i | from <= i < e :: IsNumberChar(s[i])
    requires e == |s| || !IsNumberChar(s[e])
    ensures NumberRunEnd(s, from) == e
    decreases e - from
  {
    if from < e {
      NumberRunEndAt(s, from + 1, e);
    }
  }

  /** The letter run ends at the first index that is not a letter. */
  lemma {:induction false} LetterRunEndAt(s: seq<CodeUnit>, from: nat, e: nat)
    requires from <= e <= |s|
    requires forall i | from <= i < e :: IsLetter(s[i])
    requires e == |s| || !IsLetter(s[e])
    ensures LetterRunEnd(s, from) == e
    decreases e - from
  {
    if from < e {
      LetterRunEndAt(s, from + 1, e);
    }
  }

  /** The decimal text of an integer is a non-empty run of number characters starting with a digit or `-`. */
  lemma IntegerTextChars(i: int)
    ensures |IntegerText(i)| > 0
    ensures IsDigit(IntegerText(i)[0]) || IntegerText(i)[0] == MINUS
    ensures forall k | 0 <= k < |IntegerText(i)| :: IsNumberChar(IntegerText(i)[k])
  {
    var t := IntegerText(i);
    NatTextRoundTrip(if i < 0 then -i else i);
    forall k | 0 <= k < |t| ensures IsNumberChar(t[k]) {
      if i < 0 && k > 0 {
        assert t[k] == NatText(-i)[k - 1];
      }
    }
  }

  // ---- One step of the decoder at a time ----

  /** A value that does not start with `{` or `[` is read by the scalar cases. */
  lemma ScalarValue(v: Variant, s: seq<CodeUnit>, fit: Decimal -> DoubleFit, from: nat)
    requires from < |s| && s[from] != LEFT_BRACE && s[from] != LEFT_BRACKET
    ensures ReadValue(v, s, fit, from) == ReadScalar(v, s, fit, from)
  {
  }

  /** A value read at `start` and then the whitespace after it. */
  lemma ValueThenNextAt(v: Variant, s: seq<CodeUnit>, fit: Decimal -> DoubleFit, start: nat, r: Read, next: nat)
    requires ReadValue(v, s, fit, start) == Ok(r)
    requires r.last < next < |s| && AllWhitespace(s, r.last + 1, next) && !IsWhitespace(s[next])
    ensures ValueThenNext(v, s, fit, start) == Ok((r.value, next))
  {
    SkipWhitespaceFinds(s, r.last + 1, next);
    assert SkipWhitespace(s, r.last + 1) == Ok(next);
  }

  /** The whitespace after `at` and then a value. */
  lemma ValueAfterAt(v: Variant, s: seq<CodeUnit>, fit: Decimal -> DoubleFit, at: nat, start: nat, x: (Value, nat))
    requires at < start < |s| && AllWhitespace(s, at + 1, start) && !IsWhitespace(s[start])
    requires ValueThenNext(v, s, fit, start) == Ok(x)
    ensures ValueAfter(v, s, fit, at) == Ok(x)
  {
    SkipWhitespaceFinds(s, at + 1, start);
  }

  /** An object field is its key and then the value after the colon. */
  lemma ObjectFieldAt(v: Variant, s: seq<CodeUnit>, fit: Decimal -> DoubleFit, delim: nat, key: Key, colon: nat, x: (Value, nat))
    requires delim < |s|
    requires FieldKey(v, s, delim) == Ok((key, colon)) && ValueAfter(v, s, fit, colon) == Ok(x)
    ensures ObjectField(v, s, fit, delim) == Ok((key, x.0, x.1))
  {
  }

  /**
   * After a field and a comma, the object loop goes on with the field bound in the map.
   * (One unfolding of the loop function, named so the composite lemmas below can cite the step.)
   */
  lemma ObjectFieldsGoOn(v: Variant, s: seq<CodeUnit>, fit: Decimal -> DoubleFit, delim: nat, fields: map<Key, Value>, field: (Key, Value, nat))
    requires delim < |s| && ObjectField(v, s, fit, delim) == Ok(field) && s[field.2] == COMMA
    ensures ObjectFields(v, s, fit, delim, fields) == ObjectFields(v, s, fit, field.2, fields[field.0 := field.1])
  {
  }

  /**
   * After a field and anything but a comma, the object loop stops there.
   * (One unfolding of the loop function, named so the composite lemmas below can cite the step.)
   */
  lemma ObjectFieldsStop(v: Variant, s: seq<CodeUnit>, fit: Decimal -> DoubleFit, delim: nat, fields: map<Key, Value>, field: (Key, Value, nat))
    requires delim < |s| && ObjectField(v, s, fit, delim) == Ok(field) && s[field.2] != COMMA
    ensures ObjectFields(v, s, fit, delim, fields) == Ok(Read(Obj(fields[field.0 := field.1]), field.2))
  {
  }

  /** A non-empty object is read by the field loop from its `{`. */
  lemma ObjectStart(v: Variant, s: seq<CodeUnit>, fit: Decimal -> DoubleFit, from: nat, first: nat)
    requires from < first < |s| && s[from] == LEFT_BRACE && s[first] != RIGHT_BRACE
    requires AllWhitespace(s, from + 1, first) && !IsWhitespace(s[first])
    ensures ReadValue(v, s, fit, from) == ObjectFields(v, s, fit, from, map[])
  {
    SkipWhitespaceFinds(s, from + 1, first);
    assert ReadObject(v, s, fit, from) == ObjectFields(v, s, fit, from, map[]);
  }

  // ---- Scalars ----

  /** The decimal text of an integer at `from` is exactly the number run there. */
  lemma IntegerRun(s: seq<CodeUnit>, from: nat, i: int)
    requires from + |IntegerText(i)| <= |s| && s[from..from + |IntegerText(i)|] == IntegerText(i)
    requires from + |IntegerText(i)| == |s| || !IsNumberChar(s[from + |IntegerText(i)|])
    ensures NumberRunEnd(s, from) == from + |IntegerText(i)| > from
    ensures IsNumberChar(s[from]) && s[from] != LEFT_BRACE && s[from] != LEFT_BRACKET
  {
    var t := IntegerText(i);
    var e := from + |t|;
    IntegerTextChars(i);
    forall k | from <= k < e ensures IsNumberChar(s[k]) {
      assert s[k] == t[k - from];
    }
    NumberRunEndAt(s, from, e);
  }

  /** Both variants classify the decimal text of an integer found in the buffer. */
  lemma SpanClassified(s: seq<CodeUnit>, fit: Decimal -> DoubleFit, from: nat, e: nat, i: int)
    requires from <= e <= |s| && s[from..e] == IntegerText(i)
    ensures ParseNumberSpan(s[from..e], fit) == Ok(ClassifyInteger(i))
    ensures LegacyParseNumberSpan(s[from..e], fit) == Ok(ClassifyInteger(i))
  {
    IntegerTextClassified(i, fit);
  }

  /** The current variant's number case on the run `[from, e)` when it parses. */
  lemma CurrentNumberAt(s: seq<CodeUnit>, fit: Decimal -> DoubleFit, from: nat, e: nat, x: Value)
    requires from <= e <= |s| && NumberRunEnd(s, from) == e
    requires ParseNumberSpan(s[from..e], fit) == Ok(x)
    ensures NumberRead(Current, s, fit, from) == Ok(Read(x, e - 1))
  {
    var span := s[from..NumberRunEnd(s, from)];
    assert span == s[from..e];
    assert ParseNumberSpan(span, fit) == Ok(x);
  }

  /** The older `readNumber` ends a non-empty run at its last character, and `buildString` copies the run. */
  lemma LegacyRunText(s: seq<CodeUnit>, from: nat, e: nat)
    requires from < e <= |s| && NumberRunEnd(s, from) == e
    ensures LegacyNumberEnd(s, from) == Ok(e - 1)
    ensures LegacyUnescape(s, from, e - 1) == Ok(s[from..e])
  {
    LegacyUnescapeWithoutBackslash(s, from, e - 1);
  }

  /** The older variant's number case on the non-empty run `[from, e)` when it parses. */
  lemma LegacyNumberAt(s: seq<CodeUnit>, fit: Decimal -> DoubleFit, from: nat, e: nat, x: Value)
    requires from < e <= |s| && NumberRunEnd(s, from) == e
    requires LegacyParseNumberSpan(s[from..e], fit) == Ok(x)
    ensures NumberRead(Legacy, s, fit, from) == Ok(Read(x, e - 1))
  {
    LegacyRunText(s, from, e);
    assert LegacyParseNumberSpan(LegacyUnescape(s, from, e - 1).value, fit) == Ok(x);
  }

  /**
   * The decimal text of an integer, followed by anything but a number character,
   * is a number span that parses as the integer classified by range, in both variants.
   */
  lemma NumberAt(v: Variant, s: seq<CodeUnit>, fit: Decimal -> DoubleFit, from: nat, i: int)
    requires from + |IntegerText(i)| <= |s| && s[from..from + |IntegerText(i)|] == IntegerText(i)
    requires from + |IntegerText(i)| == |s| || !IsNumberChar(s[from + |IntegerText(i)|])
    ensures NumberRead(v, s, fit, from) == Ok(Read(ClassifyInteger(i), from + |IntegerText(i)| - 1))
  {
    var e := from + |IntegerText(i)|;
    IntegerRun(s, from, i);
    SpanClassified(s, fit, from, e, i);
    if v == Current {
      CurrentNumberAt(s, fit, from, e, ClassifyInteger(i));
    } else {
      LegacyNumberAt(s, fit, from, e, ClassifyInteger(i));
    }
  }

  /**
   * The decimal text of an integer, followed by anything but a number character,
   * reads as the integer classified by range, in both variants; the read ends at
   * the text's last digit.
   */
  lemma IntegerAt(v: Variant, s: seq<CodeUnit>, fit: Decimal -> DoubleFit, from: nat, i: int)
    requires from + |IntegerText(i)| <= |s| && s[from..from + |IntegerText(i)|] == IntegerText(i)
    requires from + |IntegerText(i)| == |s| || !IsNumberChar(s[from + |IntegerText(i)|])
    ensures ReadValue(v, s, fit, from) == Ok(Read(ClassifyInteger(i), from + |IntegerText(i)| - 1))
  {
    IntegerRun(s, from, i);
    NumberAt(v, s, fit, from, i);
    assert ReadScalar(v, s, fit, from) == NumberRead(v, s, fit, from);
    ScalarValue(v, s, fit, from);
  }

  /** The decimal text of any integer decodes to that integer, classified by range, in both variants. */
  lemma IntegerDecodes(v: Variant, i: int, fit: Decimal -> DoubleFit)
    ensures Decode(v, IntegerText(i), fit) == Ok(ClassifyInteger(i))
  {
    var t := IntegerText(i);
    assert t[0..|t|] == t;
    IntegerAt(v, t, fit, 0, i);
  }

  /**
   * A quoted text without quotes or backslashes: both variants find its closing
   * quote and copy the text unchanged.
   */
  lemma PlainQuoted(v: Variant, s: seq<CodeUnit>, open: nat, t: seq<CodeUnit>)
    requires PlainText(t) && open + |t| + 1 < |s|
    requires s[open] == QUOTE && s[open + |t| + 1] == QUOTE && s[open + 1..open + |t| + 1] == t
    ensures FindChar(v, s, QUOTE, open + 1) == Ok(open + |t| + 1)
    ensures DecodeString(v, s, open + 1, open + |t|) == Ok(t)
  {
    var closing := open + |t| + 1;
    forall j | open + 1 <= j < closing ensures s[j] != QUOTE && s[j] != BACKSLASH {
      assert s[j] == t[j - open - 1];
    }
    FindsPlainOccurrence(s, QUOTE, open + 1, closing);
    if v == Current {
      UnescapeWithoutBackslash(s, open + 1, closing - 1);
    } else {
      LegacyUnescapeWithoutBackslash(s, open + 1, closing - 1);
    }
  }

  /**
   * A quoted text without quotes or backslashes reads as exactly that text in
   * both variants; the read ends at the closing quote.
   */
  lemma PlainStringAt(v: Variant, s: seq<CodeUnit>, fit: Decimal -> DoubleFit, from: nat, t: seq<CodeUnit>)
    requires PlainText(t)
    requires from + |t| + 1 < |s| && s[from] == QUOTE && s[from + |t| + 1] == QUOTE
    requires s[from + 1..from + |t| + 1] == t
    ensures ReadValue(v, s, fit, from) == Ok(Read(Str(t), from + |t| + 1))
  {
    PlainQuoted(v, s, from, t);
    assert StringRead(v, s, from) == Ok(Read(Str(t), from + |t| + 1));
    ScalarValue(v, s, fit, from);
  }

  /**
   * In the older variant `n`, `t` and `f` read as null, true and false whatever
   * follows, ending three or four characters on.
   */
  lemma LegacyLiteralsUnchecked(s: seq<CodeUnit>, fit: Decimal -> DoubleFit, from: nat)
    requires from < |s|
    ensures s[from] == LOWER_N ==> ReadValue(Legacy, s, fit, from) == Ok(Read(Null, from + 3))
    ensures s[from] == LOWER_T ==> ReadValue(Legacy, s, fit, from) == Ok(Read(Bool(true), from + 3))
    ensures s[from] == LOWER_F ==> ReadValue(Legacy, s, fit, from) == Ok(Read(Bool(false), from + 4))
  {
  }

  /**
   * In the current variant a value starting with `t` reads as true exactly when
   * the whole letter run there spells `true`; otherwise it is an invalid literal.
   * (`n` and `f` are checked the same way.)
   */
  lemma CurrentTrueChecked(s: seq<CodeUnit>, fit: Decimal -> DoubleFit, from: nat)
    requires from < |s| && s[from] == LOWER_T
    ensures ReadValue(Current, s, fit, from).Ok? <==> s[from..LetterRunEnd(s, from)] == TRUE_TEXT
    ensures ReadValue(Current, s, fit, from).Ok? ==> ReadValue(Current, s, fit, from) == Ok(Read(Bool(true), from + 3))
    ensures ReadValue(Current, s, fit, from).Err? ==> ReadValue(Current, s, fit, from).error == InvalidLiteral
  {
  }

  // ---- Containers ----

  /** `{}` with only whitespace inside is the empty map; the read ends at `}`. */
  lemma EmptyObject(v: Variant, s: seq<CodeUnit>, fit: Decimal -> DoubleFit, from: nat, k: nat)
    requires from < k < |s| && s[from] == LEFT_BRACE && s[k] == RIGHT_BRACE
    requires AllWhitespace(s, from + 1, k)
    ensures ReadValue(v, s, fit, from) == Ok(Read(Obj(map[]), k))
  {
    SkipWhitespaceFinds(s, from + 1, k);
  }

  /** `[]` with only whitespace inside is the empty list; the read ends at `]`. */
  lemma EmptyArray(v: Variant, s: seq<CodeUnit>, fit: Decimal -> DoubleFit, from: nat, k: nat)
    requires from < k < |s| && s[from] == LEFT_BRACKET && s[k] == RIGHT_BRACKET
    requires AllWhitespace(s, from + 1, k)
    ensures ReadValue(v, s, fit, from) == Ok(Read(Arr([]), k))
  {
    SkipWhitespaceFinds(s, from + 1, k);
  }

  /** The key part of an object field, one search at a time. */
  lemma FieldKeySteps(v: Variant, s: seq<CodeUnit>, delim: nat, open: nat, closing: nat, key: Key, colon: nat)
    requires FindChar(v, s, QUOTE, delim) == Ok(open) && FindChar(v, s, QUOTE, open + 1) == Ok(closing)
    requires DecodeString(v, s, open + 1, closing - 1) == Ok(key) && FindChar(v, s, COLON, closing - 1) == Ok(colon)
    ensures FieldKey(v, s, delim) == Ok((key, colon))
  {
  }

  /**
   * After a `{` or `,` at `delim`, a quoted plain key without colons followed
   * directly by a colon gives that key and the colon's index, in both variants.
   */
  lemma FieldKeyAt(v: Variant, s: seq<CodeUnit>, delim: nat, key: seq<CodeUnit>)
    requires PlainText(key) && COLON !in key
    requires delim + |key| + 3 < |s| && (s[delim] == LEFT_BRACE || s[delim] == COMMA)
    requires s[delim + 1] == QUOTE && s[delim + 2..delim + |key| + 2] == key
    requires s[delim + |key| + 2] == QUOTE && s[delim + |key| + 3] == COLON
    ensures FieldKey(v, s, delim) == Ok((key, delim + |key| + 3))
  {
    var closing := delim + |key| + 2;
    FindsPlainOccurrence(s, QUOTE, delim, delim + 1);
    PlainQuoted(v, s, delim + 1, key);
    assert s[closing - 1] != COLON by {
      if |key| > 0 {
        assert s[closing - 1] == key[|key| - 1];
      }
    }
    FindsPlainOccurrence(s, COLON, closing - 1, closing + 1);
    FieldKeySteps(v, s, delim, delim + 1, closing, key, closing + 1);
  }

  /**
   * The decimal text of an integer right after `at`, followed by a character that
   * is neither whitespace nor part of a number, is the value after `at`; the
   * index that follows is that character's.
   */
  lemma IntegerAfter(v: Variant, s: seq<CodeUnit>, fit: Decimal -> DoubleFit, at: nat, i: int)
    requires at + 1 + |IntegerText(i)| < |s| && s[at + 1..at + 1 + |IntegerText(i)|] == IntegerText(i)
    requires !IsWhitespace(s[at + 1 + |IntegerText(i)|]) && !IsNumberChar(s[at + 1 + |IntegerText(i)|])
    ensures ValueAfter(v, s, fit, at) == Ok((ClassifyInteger(i), at + 1 + |IntegerText(i)|))
  {
    var next := at + 1 + |IntegerText(i)|;
    IntegerRun(s, at + 1, i);
    IntegerAt(v, s, fit, at + 1, i);
    ValueThenNextAt(v, s, fit, at + 1, Read(ClassifyInteger(i), next - 1), next);
    ValueAfterAt(v, s, fit, at, at + 1, (ClassifyInteger(i), next));
  }

  /**
   * One field `"key":<integer>` after `delim`, followed by a character that is
   * neither whitespace nor part of a number, reads as the key, the classified
   * integer and the index of that character.
   */
  lemma IntegerFieldAt(v: Variant, s: seq<CodeUnit>, fit: Decimal -> DoubleFit, delim: nat, key: seq<CodeUnit>, i: int, colon: nat)
    requires PlainText(key) && COLON !in key && colon == delim + |key| + 3
    requires colon + 1 + |IntegerText(i)| < |s| && (s[delim] == LEFT_BRACE || s[delim] == COMMA)
    requires s[delim + 1] == QUOTE && s[delim + 2..delim + |key| + 2] == key
    requires s[delim + |key| + 2] == QUOTE && s[colon] == COLON
    requires s[colon + 1..colon + 1 + |IntegerText(i)|] == IntegerText(i)
    requires !IsWhitespace(s[colon + 1 + |IntegerText(i)|]) && !IsNumberChar(s[colon + 1 + |IntegerText(i)|])
    ensures ObjectField(v, s, fit, delim) == Ok((key, ClassifyInteger(i), colon + 1 + |IntegerText(i)|))
  {
    FieldKeyAt(v, s, delim, key);
    IntegerAfter(v, s, fit, colon, i);
    ObjectFieldAt(v, s, fit, delim, key, colon, (ClassifyInteger(i), colon + 1 + |IntegerText(i)|));
  }

  /** An object of two fields: the map binds both keys, the later binding winning. */
  lemma TwoFields(v: Variant, s: seq<CodeUnit>, fit: Decimal -> DoubleFit, first: (Key, Value, nat), second: (Key, Value, nat))
    requires 1 < |s| && s[0] == LEFT_BRACE && !IsWhitespace(s[1]) && s[1] != RIGHT_BRACE
    requires ObjectField(v, s, fit, 0) == Ok(first) && s[first.2] == COMMA
    requires ObjectField(v, s, fit, first.2) == Ok(second) && s[second.2] != COMMA
    ensures ReadValue(v, s, fit, 0) == Ok(Read(Obj(map[first.0 := first.1][second.0 := second.1]), second.2))
  {
    ObjectFieldsGoOn(v, s, fit, 0, map[], first);
    ObjectFieldsStop(v, s, fit, first.2, map[first.0 := first.1], second);
    ObjectStart(v, s, fit, 0, 1);
  }

  /**
   * A duplicate key keeps the value read last: when the two fields of an object
   * carry the same key, the map binds that key to the second value only.
   */
  lemma DuplicateKeyKeepsLast(v: Variant, s: seq<CodeUnit>, fit: Decimal -> DoubleFit, key: Key, first: (Value, nat), second: (Value, nat))
    requires 1 < |s| && s[0] == LEFT_BRACE && !IsWhitespace(s[1]) && s[1] != RIGHT_BRACE
    requires ObjectField(v, s, fit, 0) == Ok((key, first.0, first.1)) && s[first.1] == COMMA
    requires ObjectField(v, s, fit, first.1) == Ok((key, second.0, second.1)) && s[second.1] != COMMA
    ensures ReadValue(v, s, fit, 0) == Ok(Read(Obj(map[key := second.0]), second.1))
  {
    TwoFields(v, s, fit, (key, first.0, first.1), (key, second.0, second.1));
    assert map[key := first.0][key := second.0] == map[key := second.0];
  }

  // ---- Arrays ----

  /**
   * After an element and a comma, the array loop goes on with the element appended.
   * (One unfolding of the loop function, named so the composite lemmas below can cite the step.)
   */
  lemma ArrayElementsGoOn(v: Variant, s: seq<CodeUnit>, fit: Decimal -> DoubleFit, delim: nat, elems: seq<Value>, element: (Value, nat))
    requires delim < |s| && ValueAfter(v, s, fit, delim) == Ok(element) && s[element.1] == COMMA
    ensures ArrayElements(v, s, fit, delim, elems) == ArrayElements(v, s, fit, element.1, elems + [element.0])
  {
  }

  /**
   * After an element and anything but a comma, the array loop stops there.
   * (One unfolding of the loop function, named so the composite lemmas below can cite the step.)
   */
  lemma ArrayElementsStop(v: Variant, s: seq<CodeUnit>, fit: Decimal -> DoubleFit, delim: nat, elems: seq<Value>, element: (Value, nat))
    requires delim < |s| && ValueAfter(v, s, fit, delim) == Ok(element) && s[element.1] != COMMA
    ensures ArrayElements(v, s, fit, delim, elems) == Ok(Read(Arr(elems + [element.0]), element.1))
  {
  }

  /** A non-empty array is read by the element loop from its `[`. */
  lemma ArrayStart(v: Variant, s: seq<CodeUnit>, fit: Decimal -> DoubleFit, from: nat, first: nat)
    requires from < first < |s| && s[from] == LEFT_BRACKET && s[first] != RIGHT_BRACKET
    requires AllWhitespace(s, from + 1, first) && !IsWhitespace(s[first])
    ensures ReadValue(v, s, fit, from) == ArrayElements(v, s, fit, from, [])
  {
    SkipWhitespaceFinds(s, from + 1, first);
    assert ReadArray(v, s, fit, from) == ArrayElements(v, s, fit, from, []);
  }

  /** An array of two elements lists them in the order they are written. */
  lemma TwoElements(v: Variant, s: seq<CodeUnit>, fit: Decimal -> DoubleFit, first: (Value, nat), second: (Value, nat))
    requires 1 < |s| && s[0] == LEFT_BRACKET && !IsWhitespace(s[1]) && s[1] != RIGHT_BRACKET
    requires ValueAfter(v, s, fit, 0) == Ok(first) && s[first.1] == COMMA
    requires ValueAfter(v, s, fit, first.1) == Ok(second) && s[second.1] != COMMA
    ensures ReadValue(v, s, fit, 0) == Ok(Read(Arr([first.0, second.0]), second.1))
  {
    ArrayElementsGoOn(v, s, fit, 0, [], first);
    ArrayElementsStop(v, s, fit, first.1, [first.0], second);
    ArrayStart(v, s, fit, 0, 1);
    assert [] + [first.0] + [second.0] == [first.0, second.0];
  }

  // ---- Where the variants part ----

  /**
   * The colon is searched for from the key's last character, so a key that ends
   * in `:` yields its own colon as the field's colon.
   */
  lemma KeyEndingInColon(v: Variant, s: seq<CodeUnit>, delim: nat, open: nat, closing: nat, key: Key)
    requires FindChar(v, s, QUOTE, delim) == Ok(open) && FindChar(v, s, QUOTE, open + 1) == Ok(closing)
    requires open + 1 < closing && s[closing - 1] == COLON
    requires DecodeString(v, s, open + 1, closing - 1) == Ok(key)
    ensures FieldKey(v, s, delim) == Ok((key, closing - 1))
  {
    FindsPlainOccurrence(s, COLON, closing - 1, closing - 1);
    FieldKeySteps(v, s, delim, open, closing, key, closing - 1);
  }

  /** `{"a:":1}`. */
  function ColonKeyText(): (t: seq<CodeUnit>)
    ensures |t| == 8
  {
    [LEFT_BRACE, QUOTE, LOWER_A, COLON, QUOTE, COLON, DIGIT_ZERO + 1, RIGHT_BRACE]
  }

  /** The key of `{"a:":1}` is `a:`, and the colon taken is the one inside it. */
  lemma ColonKeyKey(v: Variant)
    ensures FieldKey(v, ColonKeyText(), 0) == Ok(([LOWER_A, COLON], 3))
  {
    var s := ColonKeyText();
    FindsPlainOccurrence(s, QUOTE, 0, 1);
    FindsPlainOccurrence(s, QUOTE, 2, 4);
    if v == Current {
      UnescapeWithoutBackslash(s, 2, 3);
    } else {
      LegacyUnescapeWithoutBackslash(s, 2, 3);
    }
    assert s[2..4] == [LOWER_A, COLON];
    KeyEndingInColon(v, s, 0, 1, 4, [LOWER_A, COLON]);
  }

  /** The value after that colon starts at the key's closing quote, and no quote closes it. */
  lemma ColonKeyValue(v: Variant, fit: Decimal -> DoubleFit)
    ensures ValueAfter(v, ColonKeyText(), fit, 3) == Err(EndOfInput)
  {
    var s := ColonKeyText();
    assert FindChar(v, s, QUOTE, 5).Err?;
    ScalarValue(v, s, fit, 4);
    assert ValueThenNext(v, s, fit, 4) == Err(EndOfInput);
    assert SkipWhitespace(s, 4) == Ok(4);
  }

  /**
   * `{"a:":1}` fails in both variants: the value is read as a string opened by
   * the key's closing quote, and that string is never closed.
   */
  lemma ColonKeyFails(v: Variant, fit: Decimal -> DoubleFit)
    ensures Decode(v, ColonKeyText(), fit) == Err(EndOfInput)
  {
    var s := ColonKeyText();
    ColonKeyKey(v);
    ColonKeyValue(v, fit);
    assert ObjectField(v, s, fit, 0) == Err(EndOfInput);
    assert ObjectFields(v, s, fit, 0, map[]) == Err(EndOfInput);
    assert SkipWhitespace(s, 1) == Ok(1);
    assert ReadObject(v, s, fit, 0) == Err(EndOfInput);
  }

  /**
   * The document `"\\"`: the current variant reads the one escaped backslash;
   * the older one takes the closing quote as escaped and runs off the end.
   */
  lemma EscapedBackslashString(fit: Decimal -> DoubleFit)
    ensures Decode(Current, [QUOTE, BACKSLASH, BACKSLASH, QUOTE], fit) == Ok(Str([BACKSLASH]))
    ensures Decode(Legacy, [QUOTE, BACKSLASH, BACKSLASH, QUOTE], fit) == Err(EndOfInput)
  {
    var s: seq<CodeUnit> := [QUOTE, BACKSLASH, BACKSLASH, QUOTE];
    EscapedBackslashThenQuote();
    assert UnescapeFrom(s, 3, 2) == Ok([]);
    assert s[1] == BACKSLASH && s[2] == BACKSLASH && EscapeLookup(s[2]) == Ok(BACKSLASH);
    assert [BACKSLASH] + [] == [BACKSLASH];
    assert UnescapeFrom(s, 1, 2) == Ok([BACKSLASH]);
    assert DecodeString(Current, s, 1, 2) == Ok([BACKSLASH]);
    ScalarValue(Current, s, fit, 0);
    ScalarValue(Legacy, s, fit, 0);
  }

  /**
   * In the older variant a field whose value starts with `t` reads as true,
   * whatever letters follow; the loop looks for a comma right after the three
   * skipped characters, and when there is none, the object ends there and the
   * fields written after it are not read.
   */
  lemma LegacyTrueFieldStops(s: seq<CodeUnit>, fit: Decimal -> DoubleFit, delim: nat, fields: map<Key, Value>, key: Key, colon: nat, start: nat, next: nat)
    requires delim < |s| && FieldKey(Legacy, s, delim) == Ok((key, colon))
    requires colon < start < |s| && AllWhitespace(s, colon + 1, start) && s[start] == LOWER_T
    requires start + 3 < next < |s| && AllWhitespace(s, start + 4, next) && !IsWhitespace(s[next]) && s[next] != COMMA
    ensures ObjectFields(Legacy, s, fit, delim, fields) == Ok(Read(Obj(fields[key := Bool(true)]), next))
  {
    LegacyLiteralsUnchecked(s, fit, start);
    ValueThenNextAt(Legacy, s, fit, start, Read(Bool(true), start + 3), next);
    ValueAfterAt(Legacy, s, fit, colon, start, (Bool(true), next));
    ObjectFieldAt(Legacy, s, fit, delim, key, colon, (Bool(true), next));
    ObjectFieldsStop(Legacy, s, fit, delim, fields, (key, Bool(true), next));
  }

  /** In the current variant the same field is an invalid literal unless the letters spell `true`. */
  lemma CurrentTrueFieldFails(s: seq<CodeUnit>, fit: Decimal -> DoubleFit, delim: nat, fields: map<Key, Value>, key: Key, colon: nat, start: nat)
    requires delim < |s| && FieldKey(Current, s, delim) == Ok((key, colon))
    requires colon < start < |s| && AllWhitespace(s, colon + 1, start) && s[start] == LOWER_T
    requires s[start..LetterRunEnd(s, start)] != TRUE_TEXT
    ensures ObjectFields(Current, s, fit, delim, fields) == Err(InvalidLiteral)
  {
    CurrentTrueChecked(s, fit, start);
    SkipWhitespaceFinds(s, colon + 1, start);
    assert ValueThenNext(Current, s, fit, start) == Err(InvalidLiteral);
    assert ValueAfter(Current, s, fit, colon) == Err(InvalidLiteral);
    assert ObjectField(Current, s, fit, delim) == Err(InvalidLiteral);
  }
}
