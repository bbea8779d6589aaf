# jsonwheel decoder, modelled in Dafny

jsonwheel is a small JSON decoder written in Java. `JsonWheel.read(json)` turns a
JSON text into nested Java objects: `HashMap`, `ArrayList`, `String`, `Boolean`,
`Integer`, `Long`, `BigInteger`, `Double`, `BigDecimal` and `null`. It wraps the
result in a `WheelNode`, which callers navigate with `get(key)`, `elements()`
and `val(clazz)`. The decoder works on the text's `char[]` by position:

- `readValue` dispatches on the character at a position. It returns the index
  of the value's **last** character, and callers resume one past it.
- `next(int)` skips whitespace.
- `next(char, int)` finds the next unescaped delimiter.
- `readNumber` and `readLiteral` measure a number run and a literal.
- `parseString` (in the older file, `buildString`) resolves escapes.
- `parseNumber` picks the narrowest Java number type.

The repository holds two versions of the decoder, and both are modelled. The
datatype `Decoder.Variant` selects one:

- `Current` is `src/main/java/com/romanboehm/jsonwheel/JsonWheel.java`.
- `Legacy` is the older standalone `JsonWheel.java` at the repository root. It
  differs from `Current` in six places:
  - Its delimiter scan treats any character preceded by a backslash as escaped,
    so in `"\\"` the closing quote is never found.
  - `\b` deletes the last character output so far, instead of appending U+0008.
  - `n`, `t` and `f` are taken as `null`, `true` and `false` without reading the
    rest of the word. The read advances a fixed 3 or 4 characters.
  - `readNumber` rejects an empty number run itself.
  - `parseNumber` has no test for an infinite `double`, so a decimal beyond the
    `double` range is rejected as invalid (see "## Findings").
  - The four characters of a `\u` escape are first decoded as a string of their
    own, escapes included, and only then read as hex. So `\u1\b2` gives U+0002
    in the older version, where the current one rejects `1\b2` as malformed hex.

The JSON grammar followed is a subset of RFC 8259: literals (section 3),
objects (section 4), arrays (section 5), numbers (section 6) and string escapes
(section 7). The number grammar is looser than section 6: any run of digits and
`+ - . e E` is handed to `BigDecimal`/`BigInteger`. Both versions read the four
characters of a `\u` escape with `Integer.parseInt(_, 16)`, which accepts a
leading sign: `\u+041` decodes to `A` and `\u-000` to U+0000.

## Layout

- `chars.dfy` (`Chars`): the buffer as UTF-16 code units (`CodeUnit`, an `int`
  in `[0, 0x10000)`). It also defines the character classes the source asks
  Java about: `Character.isWhitespace`, `isDigit`, `isLetter`, and the number
  characters.
- `values.dfy` (`Values`):
  - the decoded `Value` datatype;
  - `Decimal`, an unscaled integer and a scale, as `BigDecimal` holds it;
  - the `Error` kinds, one per exception the source can raise;
  - `Result`.
- `scanner.dfy` (`Scanner`): `next(int)`, both versions of `next(char, int)`,
  both `readNumber`s and `readLiteral`. Each is a specification function, plus a
  method with the source's loop that is proved to compute it.
- `strings.dfy` (`Strings`): `parseString` and `buildString`, as functions and
  as loop methods, with the escape tables and the `\uXXXX` path.
- `numbers.dfy` (`Numbers`): `parseNumber` of both versions. This covers the
  `BigInteger` and `BigDecimal` parsing of the span and the int/long/BigInteger
  classification.
- `decoder.dfy` (`Decoder`): `readValue`, `readObjectValue` and
  `readArrayValue`. Each is a recursive function, plus a method that runs the
  source's do-while loops and is proved to compute it.
- `decoder_properties.dfy` (`DecoderProperties`): what the decoder does on
  given layouts of text:
  - empty containers;
  - how the loops go on or stop;
  - duplicate keys;
  - element order;
  - integers and strings;
  - the behaviours of the two versions side by side.
- `wheel.dfy` (`Wheel`): `WheelNode` as a class with a mutable `inner` field,
  and `JsonWheel.read`.

Whether a decimal fits a `double` is not computed. It is the parameter
`fit: Decimal -> DoubleFit`. `Exact` means `BigDecimal.valueOf` of the nearest
double (its shortest decimal form) compares equal to the decimal; `Inexact`
means it does not; `Overflow` means the double is infinite. `parseNumber`
returns a `Double` only when the fit is `Exact`, so a `Double` value carries
its shortest decimal form, which is the decimal read, with trailing zeros
stripped.

Behaviours of the code that the model keeps and proves:

- The current version appends `\b` as the character U+0008. Only the older
  version deletes a character.
- Both object and array loops stop at the first non-whitespace character after
  a value that is not `,`. It need not be `}` or `]`.
- The object loop looks for the colon from the last character of the key,
  because it starts from the closing quote minus one. A key ending in `:` takes
  its own colon, and `{"a:":1}` fails (`DecoderProperties.ColonKeyFails`).
- `readInternal` ignores what follows the first value.

## Model

| member | source | states |
|---|---|---|
| Chars.IsWhitespace | src/main/java/com/romanboehm/jsonwheel/JsonWheel.java:190 | `Character.isWhitespace` on a `char`: the JSON whitespace of section 2 of RFC 8259 (space, tab, line feed, carriage return) counts, the three no-break spaces do not |
| Chars.IsDigit | src/main/java/com/romanboehm/jsonwheel/JsonWheel.java:156 | `Character.isDigit` (ASCII): a digit is neither whitespace nor a letter |
| Chars.IsNumberChar | src/main/java/com/romanboehm/jsonwheel/JsonWheel.java:156 | `Character.isDigit` or one of `NUMBER_CHARS` (`+ - . e E`): never whitespace or a structural character, and the only letters are `e`/`E`, so a number span stops before `, } ]` |
| Chars.IsHexDigit | src/main/java/com/romanboehm/jsonwheel/JsonWheel.java:237 | a digit `Character.digit(c, 16)` accepts inside `Integer.parseInt(_, 16)` (ASCII): every decimal digit, otherwise a letter |
| Chars.HexDigitValue | src/main/java/com/romanboehm/jsonwheel/JsonWheel.java:237 | `Character.digit(c, 16)`: below 16, below 10 exactly for decimal digits and then their decimal value, and a lower-case letter has the value of its upper-case form |
| Chars.IsLetter | src/main/java/com/romanboehm/jsonwheel/JsonWheel.java:164 | `Character.isLetter` (ASCII): a letter is not whitespace and not one of `" , : } ]`, so a literal's letter run stops at the structural characters |
| Scanner.SkipWhitespace | src/main/java/com/romanboehm/jsonwheel/JsonWheel.java:188-195 | `next(int)`: the result is the least index `>= from` whose character is not whitespace, with only whitespace before it; end of input exactly when everything from `from` on is whitespace |
| Scanner.Next | src/main/java/com/romanboehm/jsonwheel/JsonWheel.java:188-195 | the loop of `next(int)` computes `SkipWhitespace` |
| Scanner.SkipWhitespaceFinds | src/main/java/com/romanboehm/jsonwheel/JsonWheel.java:188-195 | a whitespace stretch followed by a non-whitespace character at `k` makes `next(int)` return `k` |
| Scanner.EscapedIffOddRun | src/main/java/com/romanboehm/jsonwheel/JsonWheel.java:174-186 | with the toggling flag, an index is escaped exactly when an odd number of backslashes precede it inside the scan |
| Scanner.FindUnescaped | src/main/java/com/romanboehm/jsonwheel/JsonWheel.java:174-186 | current `next(char, int)`: the result holds `c` and is not escaped; no earlier index from `from` qualifies; end of input exactly when none does |
| Scanner.NextUnescaped | src/main/java/com/romanboehm/jsonwheel/JsonWheel.java:174-186 | the loop with the `prev`/`isEscaped` variables computes `FindUnescaped` |
| Scanner.LegacyFindUnescaped | JsonWheel.java:182-192 | older `next(char, int)`: the first index holding `c` whose predecessor within the scan is not a backslash; end of input when there is none |
| Scanner.LegacyNextUnescaped | JsonWheel.java:182-192 | the older loop computes `LegacyFindUnescaped` |
| Scanner.EscapedBackslashThenQuote | src/main/java/com/romanboehm/jsonwheel/JsonWheel.java:178 | in `"\\"` the current scan finds the closing quote at index 3; the older scan finds none |
| Scanner.FindsPlainOccurrence | src/main/java/com/romanboehm/jsonwheel/JsonWheel.java:174-186 | both scans return the first occurrence of `c` when it is not preceded by a backslash |
| Scanner.NumberRunEnd | src/main/java/com/romanboehm/jsonwheel/JsonWheel.java:155-160 | the end of the maximal run of digits and `+ - . e E` from `from`, stopping at the end of the buffer |
| Scanner.ReadNumber | src/main/java/com/romanboehm/jsonwheel/JsonWheel.java:155-160 | current `readNumber` returns the run's last index, or `from - 1` for an empty run |
| Scanner.LegacyNumberEnd | JsonWheel.java:167-180 | older `readNumber`: succeeds exactly when the character at `from` is a number character, returns the run's last index, and is an invalid number otherwise |
| Scanner.LegacyReadNumber | JsonWheel.java:167-180 | the older loop, with its break at the end of the buffer, computes `LegacyNumberEnd` |
| Scanner.LetterRunEnd | src/main/java/com/romanboehm/jsonwheel/JsonWheel.java:163-166 | the end of the maximal run of letters from `from` |
| Scanner.LiteralEnd | src/main/java/com/romanboehm/jsonwheel/JsonWheel.java:162-172 | `readLiteral` succeeds exactly when the letter run spells the expected word, returns its last index, and is an invalid literal otherwise |
| Scanner.LiteralEndIff | src/main/java/com/romanboehm/jsonwheel/JsonWheel.java:162-172 | a literal is accepted exactly when the buffer spells it at `from` and no letter follows it |
| Scanner.ReadLiteral | src/main/java/com/romanboehm/jsonwheel/JsonWheel.java:162-172 | the loop of `readLiteral` computes `LiteralEnd` |
| Strings.ParseHex | src/main/java/com/romanboehm/jsonwheel/JsonWheel.java:237 | `Integer.parseInt(_, 16)`: accepts exactly an optional `+` or `-` followed by at least one hex digit, giving the digits' value with that sign; anything else is malformed hex |
| Strings.AppendCodePoint | src/main/java/com/romanboehm/jsonwheel/JsonWheel.java:237 | `appendCodePoint`: succeeds exactly for `0..0x10FFFF`; one unit below `0x10000`, otherwise a high/low surrogate pair |
| Strings.SurrogatePairRoundTrip | src/main/java/com/romanboehm/jsonwheel/JsonWheel.java:237 | the surrogate pair written for a supplementary code point decodes back to it |
| Strings.EscapeLookup | src/main/java/com/romanboehm/jsonwheel/JsonWheel.java:56-67 | the current table: defined exactly on `n b t f r / \ "`, with `/ \ "` mapping to themselves; anything else is an invalid escape |
| Strings.LegacyEscapeLookup | JsonWheel.java:49-59 | the older table is the current one without `b` |
| Strings.UnescapeFrom | src/main/java/com/romanboehm/jsonwheel/JsonWheel.java:226-253 | the output of `parseString` from index `i` is no longer than the input left, and its errors are never the bounds error |
| Strings.Unescape | src/main/java/com/romanboehm/jsonwheel/JsonWheel.java:222-255 | `parseString(from, to)` fails with the bounds error exactly when `from < 0` or `to` is past the buffer; its output is no longer than the range |
| Strings.ParseStep | src/main/java/com/romanboehm/jsonwheel/JsonWheel.java:228-252 | one loop turn: advances by at least one and outputs what `UnescapeFrom` puts in front of the rest; fails exactly as `UnescapeFrom` fails |
| Strings.ParseString | src/main/java/com/romanboehm/jsonwheel/JsonWheel.java:222-255 | the `StringBuilder` loop computes `Unescape` |
| Strings.LegacyBuild | JsonWheel.java:207-239 | the older loop's errors are never the bounds error of the outer range |
| Strings.LegacyUnescape | JsonWheel.java:203-240 | `buildString(from, to)` fails with the bounds error exactly when `from < 0` or `to` is past the buffer |
| Strings.DeleteLast | JsonWheel.java:224 | `deleteCharAt(max(length - 1, 0))` drops the last character, and fails on an empty builder |
| Strings.LegacyBuildString | JsonWheel.java:203-240 | the older loop, calling itself on `\u` digits, computes `LegacyUnescape` |
| Strings.UnescapePlainStretch | src/main/java/com/romanboehm/jsonwheel/JsonWheel.java:249-251 | a backslash-free stretch is copied to the output unchanged |
| Strings.UnescapeWithoutBackslash | src/main/java/com/romanboehm/jsonwheel/JsonWheel.java:222-255 | a range without backslashes decodes to exactly its own characters |
| Strings.LegacyPlainStretch | JsonWheel.java:234-236 | the older loop copies a backslash-free stretch unchanged |
| Strings.LegacyUnescapeWithoutBackslash | JsonWheel.java:203-240 | in the older version too, a range without backslashes decodes to exactly its own characters |
| Strings.TableEscape | src/main/java/com/romanboehm/jsonwheel/JsonWheel.java:241-247 | between plain text, an escape from the table becomes its one character (`\b` becomes U+0008); any other character except `u` is an invalid escape |
| Strings.TrailingBackslash | src/main/java/com/romanboehm/jsonwheel/JsonWheel.java:228 | a backslash at the last position of the range is copied literally |
| Strings.TruncatedCodePointEscape | src/main/java/com/romanboehm/jsonwheel/JsonWheel.java:231-236 | fewer than four characters after `\u` before the end of the range is a truncated code point |
| Strings.UnescapeHexEscape | src/main/java/com/romanboehm/jsonwheel/JsonWheel.java:231-239 | a `\u` escape whose four characters are hex digits, upper or lower case, consumes six characters and outputs the one code unit they name |
| Strings.UnescapeOneEscape | src/main/java/com/romanboehm/jsonwheel/JsonWheel.java:231-239 | the escape `\uXXXX` written with lower-case digits for a code unit decodes to that code unit |
| Strings.UnescapeEscapesFrom | src/main/java/com/romanboehm/jsonwheel/JsonWheel.java:227-253 | text made only of `\u` escapes with four hex digits each, in either case, decodes to the code units they name, in order |
| Strings.UnescapeEscapeAll | src/main/java/com/romanboehm/jsonwheel/JsonWheel.java:231-239 | round trip: escaping any string of code units (the empty one included) as `\uXXXX` and decoding gives it back; a surrogate pair stays a pair |
| Strings.UpperCaseSurrogateEscapes | src/test/java/com/romanboehm/jsonwheel/StringTest.java:41 | `\uD83E\uDDEA` in upper-case hex decodes to the surrogate pair `D83E DDEA`, which stands for U+1F9EA |
| Strings.LegacyAgreesOnSharedEscapes | JsonWheel.java:208-239 | without `\b` and without backslashes among `\u` digits, the older loop decodes exactly as the current one |
| Strings.LegacyBackspaceDeletes | JsonWheel.java:223-225 | in the older version `\b` removes the last character output (`back\bspace` gives `bacspace`) and fails when nothing was output |
| Strings.NestedEscapeInCodePoint | JsonWheel.java:219 | the older version decodes the `\u` digits with `buildString` first, so `\u1\b2` gives U+0002; the current one hands `1\b2` to `parseInt` unchanged (src/main/java/com/romanboehm/jsonwheel/JsonWheel.java:237) and fails with malformed hex |
| Strings.CurrentNestedEscapeRejected | src/main/java/com/romanboehm/jsonwheel/JsonWheel.java:237 | the current version hands the four characters `1\b2` of `\u1\b2` to `parseInt` unchanged and fails with malformed hex |
| Strings.LegacyNestedEscapeDecoded | JsonWheel.java:213-221 | the older version decodes `\u1\b2` to U+0002 |
| Strings.LegacyNestedDigits | JsonWheel.java:219 | the older version's nested `buildString` turns the digit characters `1\b2` into `2` |
| Strings.PlusSignedCodePointEscape | src/main/java/com/romanboehm/jsonwheel/JsonWheel.java:237 | `\u+041` decodes to `A`, because `parseInt` accepts the sign |
| Strings.MinusSignedCodePointEscape | src/main/java/com/romanboehm/jsonwheel/JsonWheel.java:237 | `\u-000` decodes to U+0000 |
| Numbers.ParseIntegerFrom | src/main/java/com/romanboehm/jsonwheel/JsonWheel.java:208 | `new BigInteger` from `lo` succeeds exactly on an optional sign followed by at least one digit and nothing else; the value is the digits' magnitude, negative only after a minus sign; anything else is an invalid number |
| Numbers.ParseInteger | src/main/java/com/romanboehm/jsonwheel/JsonWheel.java:208 | `new BigInteger(n)` succeeds exactly on an optional sign and at least one digit; empty text is an invalid number; a negative result has a leading minus |
| Numbers.NonDigitRejected | src/main/java/com/romanboehm/jsonwheel/JsonWheel.java:208 | any character other than a digit after the optional sign makes `new BigInteger` fail, which is an invalid number |
| Numbers.MisplacedSignRejected | src/main/java/com/romanboehm/jsonwheel/JsonWheel.java:208 | `1-2` and `+-1`, which `readNumber` lets through, are invalid numbers |
| Numbers.ToInt32 | src/main/java/com/romanboehm/jsonwheel/JsonWheel.java:209 | `BigInteger.intValue()`: the one `int` congruent to the value modulo 2^32, and the value itself when it fits 32 bits |
| Numbers.ToInt64 | src/main/java/com/romanboehm/jsonwheel/JsonWheel.java:212 | `BigInteger.longValue()`: the one `long` congruent to the value modulo 2^64, and the value itself when it fits 64 bits |
| Numbers.ClassifyInteger | src/main/java/com/romanboehm/jsonwheel/JsonWheel.java:209-215 | `Integer` exactly in the 32-bit range, `Long` exactly outside it but within 64 bits, `BigInteger` exactly beyond 64 bits |
| Numbers.HasDecimalMarkIff | src/main/java/com/romanboehm/jsonwheel/JsonWheel.java:200 | the decimal branch is taken exactly when the span contains `.`, `e` or `E` |
| Numbers.ParseExponent | src/main/java/com/romanboehm/jsonwheel/JsonWheel.java:201 | the exponent after `e` is read exactly when it is an optional sign and at least one digit whose value fits an `int`, and then it is that value; otherwise an invalid number |
| Numbers.ParseDecimal | src/main/java/com/romanboehm/jsonwheel/JsonWheel.java:201 | `new BigDecimal(n)`: a scale within `int` range, or an invalid number |
| Numbers.DecimalSyntaxNeeded | src/main/java/com/romanboehm/jsonwheel/JsonWheel.java:201 | text `new BigDecimal` accepts has at least one digit and only digits, `.`, `e`/`E` and signs at the front or right after the exponent mark; a negative unscaled value comes from a leading `-` |
| Numbers.MalformedDecimalsRejected | src/main/java/com/romanboehm/jsonwheel/JsonWheel.java:201 | a lone `.`, an exponent mark with no digits (`1e`) and a second point (`1.2.3`) are invalid numbers |
| Numbers.Canonical | src/main/java/com/romanboehm/jsonwheel/JsonWheel.java:203-204 | the decimal a `Double` stands for has no trailing zero in its unscaled value, and zero is `0` with scale 0 |
| Numbers.CanonicalSameValue | src/main/java/com/romanboehm/jsonwheel/JsonWheel.java:203-204 | stripping trailing zeros keeps the numeric value |
| Numbers.ParseNumberSpan | src/main/java/com/romanboehm/jsonwheel/JsonWheel.java:197-220 | current `parseNumber`: a span with a decimal mark is read exactly when `new BigDecimal` accepts it; it gives `Double` of the canonical decimal exactly when the double is exact, otherwise `BigDecimal` of the decimal itself; a span without a mark is read exactly when it is integer text (optional sign, then digits), giving `ClassifyInteger` of its value; the empty span and every other failure are an invalid number |
| Numbers.MalformedSpansRejected | src/main/java/com/romanboehm/jsonwheel/JsonWheel.java:200-219 | both `parseNumber`s reject `1-2` and a lone `.` as invalid numbers, whatever the double oracle says |
| Numbers.LegacyParseNumberSpan | JsonWheel.java:103-124 | older `parseNumber`: a decimal span is read exactly when `new BigDecimal` accepts it and its double is finite, and it is a `Double` exactly when the double is exact; the empty span and every failure are an invalid number |
| Numbers.LegacyAgreesUnlessOverflow | JsonWheel.java:103-124 | the two versions classify every span alike, except decimals whose double overflows |
| Numbers.DecimalAlwaysRead | src/main/java/com/romanboehm/jsonwheel/JsonWheel.java:200-206 | every well-formed decimal span is read, as a `Double` or as its exact `BigDecimal`, whatever the double conversion does |
| Numbers.OverflowTextDecimal | src/main/java/com/romanboehm/jsonwheel/JsonWheel.java:200-201 | `1e400` takes the decimal branch, and `new BigDecimal` reads it as 1 with scale −400 |
| Numbers.LegacyOverflowRejected | JsonWheel.java:107-111 | `1e400`, which overflows a double: the older version rejects it and the current one returns `BigDecimal` 1E+400 |
| Numbers.NatTextRoundTrip | src/main/java/com/romanboehm/jsonwheel/JsonWheel.java:208 | the decimal digits of a natural number read back as that number |
| Numbers.IntegerTextRoundTrip | src/main/java/com/romanboehm/jsonwheel/JsonWheel.java:208 | `BigInteger` parsing of any integer's decimal text gives that integer |
| Numbers.IntegerTextClassified | src/main/java/com/romanboehm/jsonwheel/JsonWheel.java:208-215 | both `parseNumber`s classify any integer's decimal text by its range |
| Decoder.FindChar | src/main/java/com/romanboehm/jsonwheel/JsonWheel.java:174-186 | the variant's `next(char, int)` finds `c` at or after `from`, or reports end of input |
| Decoder.DecodeString | src/main/java/com/romanboehm/jsonwheel/JsonWheel.java:222-225 | the variant's string builder fails with the bounds error exactly for a range outside the buffer |
| Decoder.LiteralLast | JsonWheel.java:87-95 | the older version always succeeds at `from` plus the length of the literal minus one; the current one succeeds only there |
| Decoder.NumberRead | src/main/java/com/romanboehm/jsonwheel/JsonWheel.java:107-110 | the number case ends at the last character of the number run; it fails only as an invalid number |
| Decoder.StringRead | src/main/java/com/romanboehm/jsonwheel/JsonWheel.java:91-94 | the string case yields a string and ends at a closing quote after `from` |
| Decoder.LiteralRead | src/main/java/com/romanboehm/jsonwheel/JsonWheel.java:95-106 | the literal cases yield the literal's value at `from` plus the length of the literal minus one; only the current version can fail, as an invalid literal |
| Decoder.ReadScalar | src/main/java/com/romanboehm/jsonwheel/JsonWheel.java:91-110 | the scalar cases end at or after `from`, and inside the buffer in the current version |
| Decoder.ReadValue | src/main/java/com/romanboehm/jsonwheel/JsonWheel.java:81-112 | `readValue` ends at or after `from`, inside the buffer in the current version; reading past the buffer is an index error |
| Decoder.ReadObject | src/main/java/com/romanboehm/jsonwheel/JsonWheel.java:114-135 | `readObjectValue` yields a map and ends inside the buffer after `{` |
| Decoder.FieldKey | src/main/java/com/romanboehm/jsonwheel/JsonWheel.java:125-128 | the key search ends at a colon |
| Decoder.ObjectField | src/main/java/com/romanboehm/jsonwheel/JsonWheel.java:125-131 | one field ends at the non-whitespace character after its value |
| Decoder.ObjectFields | src/main/java/com/romanboehm/jsonwheel/JsonWheel.java:124-132 | the field loop keeps every key bound so far and stops at a character that is not `,` |
| Decoder.ReadArray | src/main/java/com/romanboehm/jsonwheel/JsonWheel.java:137-153 | `readArrayValue` yields a list and ends inside the buffer after `[` |
| Decoder.ValueThenNext | src/main/java/com/romanboehm/jsonwheel/JsonWheel.java:130-131 | a value and then the first non-whitespace character after it |
| Decoder.ValueAfter | src/main/java/com/romanboehm/jsonwheel/JsonWheel.java:148-149 | the value after `at` ends at a later non-whitespace character |
| Decoder.ArrayElements | src/main/java/com/romanboehm/jsonwheel/JsonWheel.java:147-150 | the element loop extends the list it was given, keeping its prefix, and stops at a character that is not `,` |
| Decoder.Decode | src/main/java/com/romanboehm/jsonwheel/JsonWheel.java:75-79 | `readInternal` on an empty text is an index error |
| Decoder.NextChar | src/main/java/com/romanboehm/jsonwheel/JsonWheel.java:174-186 | runs the variant's scan loop and computes `FindChar` |
| Decoder.BuildString | src/main/java/com/romanboehm/jsonwheel/JsonWheel.java:222-255 | runs the variant's builder loop and computes `DecodeString` |
| Decoder.ReadStringAt | src/main/java/com/romanboehm/jsonwheel/JsonWheel.java:91-94 | computes `StringRead` |
| Decoder.ReadLiteralAt | src/main/java/com/romanboehm/jsonwheel/JsonWheel.java:95-106 | computes `LiteralRead` |
| Decoder.ReadNumberAt | src/main/java/com/romanboehm/jsonwheel/JsonWheel.java:107-110 | computes `NumberRead` |
| Decoder.ReadScalarAt | src/main/java/com/romanboehm/jsonwheel/JsonWheel.java:91-110 | computes `ReadScalar` |
| Decoder.ReadValueAt | src/main/java/com/romanboehm/jsonwheel/JsonWheel.java:81-112 | computes `ReadValue` |
| Decoder.ReadKey | src/main/java/com/romanboehm/jsonwheel/JsonWheel.java:125-128 | computes `FieldKey` |
| Decoder.ReadField | src/main/java/com/romanboehm/jsonwheel/JsonWheel.java:125-131 | computes `ObjectField` |
| Decoder.ReadValueThenNext | src/main/java/com/romanboehm/jsonwheel/JsonWheel.java:130-131 | computes `ValueThenNext` |
| Decoder.ReadValueAfter | src/main/java/com/romanboehm/jsonwheel/JsonWheel.java:148-149 | computes `ValueAfter` |
| Decoder.ReadObjectValue | src/main/java/com/romanboehm/jsonwheel/JsonWheel.java:114-135 | the do-while loop fills the map field by field and computes `ReadObject` |
| Decoder.ReadArrayValue | src/main/java/com/romanboehm/jsonwheel/JsonWheel.java:137-153 | the do-while loop fills the list element by element and computes `ReadArray` |
| DecoderProperties.ObjectFieldAt | src/main/java/com/romanboehm/jsonwheel/JsonWheel.java:125-131 | a field is its key followed by the value after the colon |
| DecoderProperties.ObjectFieldsGoOn | src/main/java/com/romanboehm/jsonwheel/JsonWheel.java:130-132 | after a field and a comma the loop goes on, with the field bound in the map and overwriting an earlier binding |
| DecoderProperties.ObjectFieldsStop | src/main/java/com/romanboehm/jsonwheel/JsonWheel.java:131-134 | after a field and any character other than a comma, the loop stops there and returns the map |
| DecoderProperties.ObjectStart | src/main/java/com/romanboehm/jsonwheel/JsonWheel.java:115-123 | a non-empty object is read by the field loop from its `{` |
| DecoderProperties.CurrentNumberAt | src/main/java/com/romanboehm/jsonwheel/JsonWheel.java:107-110 | the current number case ends at the run's last character with the parsed value |
| DecoderProperties.LegacyNumberAt | JsonWheel.java:96-99 | the older number case ends at the last character of a non-empty run with the parsed value |
| DecoderProperties.NumberAt | src/main/java/com/romanboehm/jsonwheel/JsonWheel.java:107-110 | in both versions, any integer's decimal text in the buffer reads as that integer, classified, ending at its last digit |
| DecoderProperties.IntegerAt | src/main/java/com/romanboehm/jsonwheel/JsonWheel.java:81-112 | `readValue` reads any integer's decimal text as that integer, classified by range |
| DecoderProperties.IntegerDecodes | src/main/java/com/romanboehm/jsonwheel/JsonWheel.java:75-79 | decoding any integer's decimal text gives that integer in both versions |
| DecoderProperties.PlainQuoted | src/main/java/com/romanboehm/jsonwheel/JsonWheel.java:92-93 | for plain text between quotes, both scans find the closing quote and both builders return the text |
| DecoderProperties.PlainStringAt | src/main/java/com/romanboehm/jsonwheel/JsonWheel.java:91-94 | a quoted plain text reads as that string, ending at its closing quote |
| DecoderProperties.LegacyLiteralsUnchecked | JsonWheel.java:87-95 | the older version reads `n`, `t`, `f` as null, true, false ending at `from + 3`, `+ 3`, `+ 4`, whatever follows |
| DecoderProperties.CurrentTrueChecked | src/main/java/com/romanboehm/jsonwheel/JsonWheel.java:99-102 | the current version accepts `t` exactly when the letter run spells `true`, and is an invalid literal otherwise |
| DecoderProperties.EmptyObject | src/main/java/com/romanboehm/jsonwheel/JsonWheel.java:115-120 | `{` with only whitespace before `}` is the empty map, ending at `}` |
| DecoderProperties.EmptyArray | src/main/java/com/romanboehm/jsonwheel/JsonWheel.java:138-143 | `[` with only whitespace before `]` is the empty list, ending at `]` |
| DecoderProperties.FieldKeySteps | src/main/java/com/romanboehm/jsonwheel/JsonWheel.java:125-128 | the key is decoded between the next two quotes, and the colon is searched for from the key's last character |
| DecoderProperties.FieldKeyAt | src/main/java/com/romanboehm/jsonwheel/JsonWheel.java:125-128 | `"key":` right after `{` or `,` gives that key and that colon |
| DecoderProperties.IntegerFieldAt | src/main/java/com/romanboehm/jsonwheel/JsonWheel.java:125-131 | `"key":` followed by an integer's text gives that key bound to that integer |
| DecoderProperties.TwoFields | src/main/java/com/romanboehm/jsonwheel/JsonWheel.java:114-135 | an object of two fields binds both keys, the later binding winning |
| DecoderProperties.DuplicateKeyKeepsLast | src/main/java/com/romanboehm/jsonwheel/JsonWheel.java:130 | a key given twice keeps the second value |
| DecoderProperties.ArrayElementsGoOn | src/main/java/com/romanboehm/jsonwheel/JsonWheel.java:148-150 | after an element and a comma, the loop goes on with the element appended |
| DecoderProperties.ArrayElementsStop | src/main/java/com/romanboehm/jsonwheel/JsonWheel.java:149-152 | after an element and any character other than a comma, the loop stops there and returns the list |
| DecoderProperties.ArrayStart | src/main/java/com/romanboehm/jsonwheel/JsonWheel.java:138-146 | a non-empty array is read by the element loop from its `[` |
| DecoderProperties.TwoElements | src/main/java/com/romanboehm/jsonwheel/JsonWheel.java:137-153 | an array of two elements lists them in source order |
| DecoderProperties.KeyEndingInColon | src/main/java/com/romanboehm/jsonwheel/JsonWheel.java:126-128 | a key whose last character is `:` takes that character as the field's colon |
| DecoderProperties.ColonKeyFails | src/main/java/com/romanboehm/jsonwheel/JsonWheel.java:114-135 | `{"a:":1}` fails with end of input in both versions |
| DecoderProperties.EscapedBackslashString | src/main/java/com/romanboehm/jsonwheel/JsonWheel.java:174-186 | `"\\"` decodes to one backslash in the current version, and the older one finds no closing quote |
| DecoderProperties.LegacyTrueFieldStops | JsonWheel.java:87-95 | in the older version a field value starting with `t` is `true`, and the object ends at the next non-comma |
| DecoderProperties.CurrentTrueFieldFails | src/main/java/com/romanboehm/jsonwheel/JsonWheel.java:99-102 | in the current version the same field is an invalid literal unless the word is `true` |
| Wheel.ClassOf | src/main/java/com/romanboehm/jsonwheel/JsonWheel.java:81-112 | every non-null decoded value has a class of its own, never plain `Object` |
| Wheel.Cast | src/main/java/com/romanboehm/jsonwheel/JsonWheel.java:49-51 | `val` fails only with a class cast error |
| Wheel.ElementValues | src/main/java/com/romanboehm/jsonwheel/JsonWheel.java:37-43 | `elements()` works exactly on a list; null is the `NullPointer` error, any other value `ClassCast` |
| Wheel.Lookup | src/main/java/com/romanboehm/jsonwheel/JsonWheel.java:45-47 | `get` works exactly on a map; null is the `NullPointer` error, any other value `ClassCast` |
| Wheel.WheelNode.constructor | src/main/java/com/romanboehm/jsonwheel/JsonWheel.java:29-30 | a new node holds null |
| Wheel.WheelNode.SetInner | src/main/java/com/romanboehm/jsonwheel/JsonWheel.java:32-35 | `setInner` replaces the held value |
| Wheel.WheelNode.Elements | src/main/java/com/romanboehm/jsonwheel/JsonWheel.java:37-43 | `elements()` returns fresh nodes, one per element, in order and holding the elements; it fails as `ElementValues` fails |
| Wheel.WheelNode.Get | src/main/java/com/romanboehm/jsonwheel/JsonWheel.java:45-47 | `get(key)` returns a fresh node holding the entry, or null for an absent key |
| Wheel.WheelNode.Val | src/main/java/com/romanboehm/jsonwheel/JsonWheel.java:49-51 | `val(clazz)` computes `Cast` |
| Wheel.ReadJson | src/main/java/com/romanboehm/jsonwheel/JsonWheel.java:18-21 | `read` returns a fresh node holding the decoded value, and fails exactly when decoding fails |
| Wheel.CastIff | src/main/java/com/romanboehm/jsonwheel/JsonWheel.java:49-51 | `val` succeeds exactly on null or an instance of the class; it gives null exactly for null, and the value itself otherwise |
| Wheel.OneClassOnly | src/main/java/com/romanboehm/jsonwheel/JsonWheel.java:49-51 | a value readable as one concrete class fails as any other modelled class except `Object` (supertypes such as `Number` are not modelled) |
| Wheel.AbsentKeyIsNull | src/main/java/com/romanboehm/jsonwheel/JsonWheel.java:45-47 | `get` on an absent key holds null, and `val` of it is null for any class |
| Wheel.PresentKeyHoldsValue | src/main/java/com/romanboehm/jsonwheel/JsonWheel.java:45-47 | `get` on a present key holds its value, readable as that value's class |

## Left out

- `PrepareRelease.java` is not part of this model. It only copies a file.
- The test classes are not part of this model.
- Reading the input string: `toCharArray` is taken as given, and the buffer
  is the `chars` parameter.
- The conversion of a decimal to `double` and back is not modelled. It is the
  `fit` parameter. A `Double` value carries its shortest decimal form, with
  trailing zeros stripped, not the bits of the IEEE value. The oracle is given
  the decimal as written (unscaled value and scale), so nothing in the model
  forces `Decimal(10, 1)` and `Decimal(1, 0)`, which are equal in value, to get
  the same answer, as Java's `doubleValue` and `compareTo` would. No lemma
  depends on it.
- Numbers.ParseNumberSpan: `-0.0` and `0.0` both give `Double(Decimal(0, 0))`.
  Java returns the double −0.0 for the first, which `Double.equals` tells
  apart from 0.0; the model does not keep the sign of a zero.
- `Character.isDigit`, `isLetter` and `Character.digit` are modelled for
  ASCII only. The Unicode digits and letters beyond ASCII are not included.
  `isWhitespace` is exact for code units in the Basic Multilingual Plane.
- `HashMap` hashing and iteration order, and object identity inside the
  decoded tree, are not modelled. Maps and lists are Dafny values, so sharing
  between nodes is not modelled either.
- The `Consumer` callbacks are not modelled. Each read returns its value
  instead, and the value is the same one the callback would have stored.
- Exception messages are left out. Only the kind of failure is kept.
- Stack overflow on deeply nested input is not modelled.
- Strings.ParseHex: the overflow check of `Integer.parseInt` is not modelled.
  With at most four digits it cannot trigger.
- Wheel.Cast: only the classes the decoder produces, plus `Object`, are
  modelled. `MapClass` and `ListClass` stand for `HashMap` and `ArrayList`.
  Interfaces and superclasses such as `Number`, `Map` or `List`, which
  `Class.cast` would also accept, are not modelled.

## Findings

| source | as written | input that shows it | evidently intended | confidence | as-written member | corrected member |
|---|---|---|---|---|---|---|
| JsonWheel.java:108 | the older `parseNumber` compares the decimal with `BigDecimal.valueOf(bd.doubleValue())`; for a decimal beyond the double range `doubleValue()` is infinite, `valueOf` throws `NumberFormatException`, and the number is reported as invalid | `1e400` | the exact `BigDecimal`, as the comment "Use arbitrary precision" says and as the current file does by testing for infinity first (src/main/java/com/romanboehm/jsonwheel/JsonWheel.java:203) | not executed | Numbers.LegacyOverflowRejected | Numbers.DecimalAlwaysRead |
