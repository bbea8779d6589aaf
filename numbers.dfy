/**
 * The number classifier: `parseNumber` applied to the span `readNumber` matched.
 * Integral spans become the narrowest of Integer, Long and BigInteger; spans with a
 * decimal point or an exponent become a Double when the double is exact, else a BigDecimal.
 */
module Numbers {
  import opened Chars
  import opened Values

  const INT_MIN: int := -0x8000_0000
  const INT_MAX: int := 0x7FFF_FFFF
  const LONG_MIN: int := -0x8000_0000_0000_0000
  const LONG_MAX: int := 0x7FFF_FFFF_FFFF_FFFF

  /** Every character in `t[lo..hi]` is a decimal digit. */
  predicate DigitsIn(t: seq<CodeUnit>, lo: nat, hi: nat)
    requires lo <= hi <= |t|
  {
    forall j | lo <= j < hi :: IsDigit(t[j])
  }

  /** The value of the digits `t[lo..hi]`, most significant first. */
  function ValueIn(t: seq<CodeUnit>, lo: nat, hi: nat): nat
    requires lo <= hi <= |t| && DigitsIn(t, lo, hi)
    decreases hi - lo
  {
    if hi == lo then 0 else ValueIn(t, lo, hi - 1) * 10 + DigitValue(t[hi - 1])
  }

  /** The value of a digit range depends only on the digits in it. */
  lemma {:induction false} ValueInSlice(t: seq<CodeUnit>, lo: nat, hi: nat)
    requires lo <= hi <= |t| && DigitsIn(t, lo, hi)
    ensures DigitsIn(t[lo..hi], 0, hi - lo) && ValueIn(t, lo, hi) == ValueIn(t[lo..hi], 0, hi - lo)
    decreases hi - lo
  {
    var u := t[lo..hi];
    if hi > lo {
      ValueInSlice(t, lo, hi - 1);
      assert t[lo..hi - 1] == u[..hi - lo - 1];
      ValueInSlice(u, 0, hi - lo - 1);
      assert u[hi - lo - 1] == t[hi - 1];
    }
  }

  /** The length of the one optional leading sign that BigInteger and BigDecimal accept. */
  function SignLength(t: seq<CodeUnit>, lo: nat): (n: nat)
    ensures n <= 1
    ensures n == 1 <==> lo < |t| && (t[lo] == PLUS || t[lo] == MINUS)
  {
    if lo < |t| && (t[lo] == PLUS || t[lo] == MINUS) then 1 else 0
  }

  /** `t[lo..]` is an optional sign followed by at least one digit and nothing else. */
  predicate IntegerSyntax(t: seq<CodeUnit>, lo: nat)
    requires lo <= |t|
  {
    var start := lo + SignLength(t, lo);
    start < |t| && DigitsIn(t, start, |t|)
  }

  /** The value of the digits after the sign of well-formed integer text. */
  function Magnitude(t: seq<CodeUnit>, lo: nat): nat
    requires lo <= |t| && IntegerSyntax(t, lo)
  {
    ValueIn(t, lo + SignLength(t, lo), |t|)
  }

  /**
   * `new BigInteger` on `t[lo..]`: an optional sign, then at least one digit and
   * nothing else.
   */
  function ParseIntegerFrom(t: seq<CodeUnit>, lo: nat): (r: Result<int>)
    requires lo <= |t|
    ensures r.Err? ==> r.error == InvalidNumber
    ensures r.Ok? <==> IntegerSyntax(t, lo)
    ensures r.Ok? ==> lo < |t| && (r.value < 0 ==> t[lo] == MINUS)
    ensures r.Ok? ==> r.value == Magnitude(t, lo) || r.value == -(Magnitude(t, lo) as int)
    ensures r.Ok? && t[lo] == MINUS ==> r.value <= 0
  {
    var start := lo + SignLength(t, lo);
    if start == |t| || !DigitsIn(t, start, |t|) then Err(InvalidNumber)
    else
      var magnitude := ValueIn(t, start, |t|);
      Ok(if t[lo] == MINUS then -(magnitude as int) else magnitude)
  }

  /** `new BigInteger(t)`. */
  function ParseInteger(t: seq<CodeUnit>): (r: Result<int>)
    ensures r.Err? ==> r.error == InvalidNumber
    ensures r.Ok? <==> IntegerSyntax(t, 0)
    ensures r.Ok? ==> |t| > 0 && (r.value < 0 ==> t[0] == MINUS)
  {
    ParseIntegerFrom(t, 0)
  }

  /** A character other than a digit after the optional sign makes the text an invalid number. */
  lemma NonDigitRejected(t: seq<CodeUnit>, lo: nat, k: nat)
    requires lo + SignLength(t, lo) <= k < |t| && !IsDigit(t[k])
    ensures ParseIntegerFrom(t, lo) == Err(InvalidNumber)
  {
  }

  /** `1-2` and `+-1`: a sign anywhere but first makes the text an invalid number. */
  lemma MisplacedSignRejected()
    ensures ParseInteger([DIGIT_ZERO + 1, MINUS, DIGIT_ZERO + 2]) == Err(InvalidNumber)
    ensures ParseInteger([PLUS, MINUS, DIGIT_ZERO + 1]) == Err(InvalidNumber)
  {
    NonDigitRejected([DIGIT_ZERO + 1, MINUS, DIGIT_ZERO + 2], 0, 1);
    NonDigitRejected([PLUS, MINUS, DIGIT_ZERO + 1], 0, 1);
  }

  /** `BigInteger.intValue()`: the low 32 bits read as a two's complement int. */
  function ToInt32(i: int): (r: int)
    ensures INT_MIN <= r <= INT_MAX && (i - r) % 0x1_0000_0000 == 0
    ensures INT_MIN <= i <= INT_MAX ==> r == i
  {
    (i + 0x8000_0000) % 0x1_0000_0000 - 0x8000_0000
  }

  /** `BigInteger.longValue()`: the low 64 bits read as a two's complement long. */
  function ToInt64(i: int): (r: int)
    ensures LONG_MIN <= r <= LONG_MAX && (i - r) % 0x1_0000_0000_0000_0000 == 0
    ensures LONG_MIN <= i <= LONG_MAX ==> r == i
  {
    (i + 0x8000_0000_0000_0000) % 0x1_0000_0000_0000_0000 - 0x8000_0000_0000_0000
  }

  /**
   * The integer branch's choice: an Integer when truncating to 32 bits changes
   * nothing, else a Long when truncating to 64 bits changes nothing, else a BigInteger.
   */
  function ClassifyInteger(i: int): (v: Value)
    ensures v == Int32(i) <==> INT_MIN <= i <= INT_MAX
    ensures v == Int64(i) <==> (i < INT_MIN || INT_MAX < i) && LONG_MIN <= i <= LONG_MAX
    ensures v == BigInt(i) <==> i < LONG_MIN || LONG_MAX < i
  {
    if ToInt32(i) == i then Int32(i) else if ToInt64(i) == i then Int64(i) else BigInt(i)
  }

  /** The first index `>= i` holding `e` or `E`, or `|t|` when there is none. */
  function ExponentFrom(t: seq<CodeUnit>, i: nat): (k: nat)
    requires i <= |t|
    ensures i <= k <= |t|
    ensures k < |t| ==> t[k] == LOWER_E || t[k] == UPPER_E
    ensures forall j | i <= j < k :: t[j] != LOWER_E && t[j] != UPPER_E
    decreases |t| - i
  {
    if i == |t| || t[i] == LOWER_E || t[i] == UPPER_E then i else ExponentFrom(t, i + 1)
  }

  /** The first index in `[i, hi)` holding `.`, or `hi` when there is none. */
  function DotFrom(t: seq<CodeUnit>, i: nat, hi: nat): (k: nat)
    requires i <= hi <= |t|
    ensures i <= k <= hi
    ensures k < hi ==> t[k] == DOT
    ensures forall j | i <= j < k :: t[j] != DOT
    decreases hi - i
  {
    if i == hi || t[i] == DOT then i else DotFrom(t, i + 1, hi)
  }

  /** The span takes the decimal branch: it contains `.`, or `e` in either case. */
  predicate HasDecimalMark(t: seq<CodeUnit>) {
    DotFrom(t, 0, |t|) < |t| || ExponentFrom(t, 0) < |t|
  }

  lemma HasDecimalMarkIff(t: seq<CodeUnit>)
    ensures HasDecimalMark(t) <==> exists k | 0 <= k < |t| :: t[k] == DOT || t[k] == LOWER_E || t[k] == UPPER_E
  {
  }

  /** The exponent `t[lo..]` after `e`/`E`: an optional sign and at least one digit, within `int` range. */
  function ParseExponent(t: seq<CodeUnit>, lo: nat): (r: Result<int>)
    requires lo <= |t|
    ensures r.Err? ==> r.error == InvalidNumber
    ensures r.Ok? <==> IntegerSyntax(t, lo) && INT_MIN <= ParseIntegerFrom(t, lo).value <= INT_MAX
    ensures r.Ok? ==> INT_MIN <= r.value <= INT_MAX && r.value == ParseIntegerFrom(t, lo).value
  {
    var e :- ParseIntegerFrom(t, lo);
    if INT_MIN <= e <= INT_MAX then Ok(e) else Err(InvalidNumber)
  }

  /**
   * A character BigDecimal's grammar allows at position `k`: a digit, the point, the
   * exponent mark, or a sign first in the text or right after the exponent mark.
   */
  predicate DecimalChar(t: seq<CodeUnit>, k: nat)
    requires k < |t|
  {
    IsDigit(t[k]) || t[k] == DOT || t[k] == LOWER_E || t[k] == UPPER_E
    || ((t[k] == PLUS || t[k] == MINUS) && (k == 0 || t[k - 1] == LOWER_E || t[k - 1] == UPPER_E))
  }

  /**
   * `new BigDecimal(t)`: an optional sign, digits with at most one `.` and at least
   * one digit, then optionally an exponent; the scale is the number of fraction
   * digits minus the exponent and must fit an `int`.
   */
  function ParseDecimal(t: seq<CodeUnit>): (r: Result<Decimal>)
    ensures r.Err? ==> r.error == InvalidNumber
    ensures r.Ok? ==> INT_MIN <= r.value.scale <= INT_MAX
  {
    var start := SignLength(t, 0);
    var e := ExponentFrom(t, start);
    var dot := DotFrom(t, start, e);
    var fraction := if dot < e then dot + 1 else e;
    if !DigitsIn(t, start, dot) || !DigitsIn(t, fraction, e) || dot - start + e - fraction == 0 then Err(InvalidNumber)
    else
      var exponent :- if e == |t| then Ok(0) else ParseExponent(t, e + 1);
      var scale := e - fraction - exponent;
      if !(INT_MIN <= scale <= INT_MAX) then Err(InvalidNumber)
      else
        var magnitude := ValueIn(t, start, dot) * Pow10(e - fraction) + ValueIn(t, fraction, e);
        Ok(Decimal(if start == 1 && t[0] == MINUS then -(magnitude as int) else magnitude, scale))
  }

  /**
   * Text `new BigDecimal` accepts has at least one digit and only the characters its
   * grammar allows, and a negative unscaled value comes from a leading minus.
   */
  lemma {:induction false} DecimalSyntaxNeeded(t: seq<CodeUnit>)
    requires ParseDecimal(t).Ok?
    ensures exists k | 0 <= k < |t| :: IsDigit(t[k])
    ensures forall k | 0 <= k < |t| :: DecimalChar(t, k)
    ensures ParseDecimal(t).value.unscaled < 0 ==> t[0] == MINUS
  {
    var start := SignLength(t, 0);
    var e := ExponentFrom(t, start);
    var dot := DotFrom(t, start, e);
    var fraction := if dot < e then dot + 1 else e;
    assert DigitsIn(t, start, dot) && DigitsIn(t, fraction, e) && dot - start + e - fraction > 0;
    if dot > start {
      assert IsDigit(t[start]);
    } else {
      assert IsDigit(t[fraction]);
    }
    if e < |t| {
      assert ParseExponent(t, e + 1).Ok?;
      assert IntegerSyntax(t, e + 1);
    }
    forall k | 0 <= k < |t|
      ensures DecimalChar(t, k)
    {
      if k < start || k == dot || k == e {
      } else if k < dot {
        assert IsDigit(t[k]);
      } else if k < e {
        assert fraction <= k && IsDigit(t[k]);
      } else {
        assert DigitsIn(t, e + 1 + SignLength(t, e + 1), |t|);
      }
    }
  }

  /** A lone `.`, a dangling `1e` and a second point in `1.2.3` are invalid numbers. */
  lemma MalformedDecimalsRejected()
    ensures ParseDecimal([DOT]) == Err(InvalidNumber)
    ensures ParseDecimal([DIGIT_ZERO + 1, LOWER_E]) == Err(InvalidNumber)
    ensures ParseDecimal([DIGIT_ZERO + 1, DOT, DIGIT_ZERO + 2, DOT, DIGIT_ZERO + 3]) == Err(InvalidNumber)
  {
    var dot := [DOT];
    assert ExponentFrom(dot, 0) == 1;
    assert DotFrom(dot, 0, 1) == 0;
    var e := [DIGIT_ZERO + 1, LOWER_E];
    assert ExponentFrom(e, 0) == 1;
    assert ParseExponent(e, 2).Err?;
    var twice := [DIGIT_ZERO + 1, DOT, DIGIT_ZERO + 2, DOT, DIGIT_ZERO + 3];
    assert ExponentFrom(twice, 0) == 5;
    assert DotFrom(twice, 0, 5) == 1;
    assert !IsDigit(twice[3]);
  }

  function Pow10(k: nat): (p: nat)
    ensures p >= 1
  {
    if k == 0 then 1 else 10 * Pow10(k - 1)
  }

  /**
   * The decimal with trailing zeros stripped from the unscaled value, so two
   * literals for the same double give the same payload.
   */
  function Canonical(d: Decimal): (r: Decimal)
    ensures d.unscaled == 0 <==> r == Decimal(0, 0)
    ensures d.unscaled != 0 ==> r.unscaled % 10 != 0
    decreases if d.unscaled < 0 then -d.unscaled else d.unscaled
  {
    if d.unscaled == 0 then Decimal(0, 0)
    else if d.unscaled % 10 != 0 then d
    else Canonical(Decimal(d.unscaled / 10, d.scale - 1))
  }

  /** Stripping trailing zeros keeps the value: only the scale and the unscaled value shrink together. */
  lemma {:induction false} CanonicalSameValue(d: Decimal)
    ensures d.unscaled != 0 ==> Canonical(d).scale <= d.scale
    ensures d.unscaled != 0 ==> Canonical(d).unscaled * Pow10(d.scale - Canonical(d).scale) == d.unscaled
    decreases if d.unscaled < 0 then -d.unscaled else d.unscaled
  {
    if d.unscaled != 0 && d.unscaled % 10 == 0 {
      var d' := Decimal(d.unscaled / 10, d.scale - 1);
      CanonicalSameValue(d');
      var r := Canonical(d');
      assert r.unscaled * Pow10(d.scale - r.scale) == r.unscaled * Pow10(d'.scale - r.scale) * 10;
    }
  }

  /**
   * `parseNumber` of the current version on the span text: the decimal branch
   * falls back to BigDecimal when the double is inexact or infinite.
   */
  function ParseNumberSpan(t: seq<CodeUnit>, fit: Decimal -> DoubleFit): (r: Result<Value>)
    ensures r.Err? ==> r.error == InvalidNumber
    ensures t == [] ==> r.Err?
    ensures r.Ok? && HasDecimalMark(t) ==> r.value.Double? || r.value.BigDec?
    ensures r.Ok? && !HasDecimalMark(t) ==> r.value.Int32? || r.value.Int64? || r.value.BigInt?
    ensures HasDecimalMark(t) ==> (r.Ok? <==> ParseDecimal(t).Ok?)
    ensures !HasDecimalMark(t) ==> (r.Ok? <==> IntegerSyntax(t, 0))
    ensures r.Ok? && !HasDecimalMark(t) ==> r.value == ClassifyInteger(ParseInteger(t).value)
    ensures r.Ok? && HasDecimalMark(t) ==> (r.value.Double? <==> fit(ParseDecimal(t).value) == Exact)
    ensures r.Ok? && r.value.Double? ==> r.value.d == Canonical(ParseDecimal(t).value)
    ensures r.Ok? && r.value.BigDec? ==> r.value.d == ParseDecimal(t).value
  {
    if HasDecimalMark(t) then
      var d :- ParseDecimal(t);
      Ok(if fit(d) == Exact then Double(Canonical(d)) else BigDec(d))
    else
      var i :- ParseInteger(t);
      Ok(ClassifyInteger(i))
  }

  /**
   * `parseNumber` of the older version: an infinite double makes
   * `BigDecimal.valueOf` throw, which surfaces as an invalid number.
   */
  function LegacyParseNumberSpan(t: seq<CodeUnit>, fit: Decimal -> DoubleFit): (r: Result<Value>)
    ensures r.Err? ==> r.error == InvalidNumber
    ensures t == [] ==> r.Err?
    ensures HasDecimalMark(t) ==> (r.Ok? <==> ParseDecimal(t).Ok? && fit(ParseDecimal(t).value) != Overflow)
    ensures r.Ok? && HasDecimalMark(t) ==> (r.value.Double? <==> fit(ParseDecimal(t).value) == Exact)
  {
    if HasDecimalMark(t) then
      var d :- ParseDecimal(t);
      match fit(d)
      case Exact => Ok(Double(Canonical(d)))
      case Inexact => Ok(BigDec(d))
      case Overflow => Err(InvalidNumber)
    else
      var i :- ParseInteger(t);
      Ok(ClassifyInteger(i))
  }

  /** The two versions classify every span alike, except decimals whose double overflows. */
  lemma LegacyAgreesUnlessOverflow(t: seq<CodeUnit>, fit: Decimal -> DoubleFit)
    requires !HasDecimalMark(t) || ParseDecimal(t).Err? || fit(ParseDecimal(t).value) != Overflow
    ensures LegacyParseNumberSpan(t, fit) == ParseNumberSpan(t, fit)
  {
  }

  /**
   * Both `parseNumber`s reject a span with a sign in the middle (`1-2`) and a lone `.`,
   * whatever the double oracle says.
   */
  lemma MalformedSpansRejected(fit: Decimal -> DoubleFit)
    ensures ParseNumberSpan([DIGIT_ZERO + 1, MINUS, DIGIT_ZERO + 2], fit) == Err(InvalidNumber)
    ensures LegacyParseNumberSpan([DIGIT_ZERO + 1, MINUS, DIGIT_ZERO + 2], fit) == Err(InvalidNumber)
    ensures ParseNumberSpan([DOT], fit) == Err(InvalidNumber)
    ensures LegacyParseNumberSpan([DOT], fit) == Err(InvalidNumber)
  {
    var signed := [DIGIT_ZERO + 1, MINUS, DIGIT_ZERO + 2];
    assert !HasDecimalMark(signed) by {
      HasDecimalMarkIff(signed);
    }
    MisplacedSignRejected();
    MalformedDecimalsRejected();
    LegacyAgreesUnlessOverflow(signed, fit);
    LegacyAgreesUnlessOverflow([DOT], fit);
  }

  /** A decimal span is read by the current version whatever the double oracle says. */
  lemma DecimalAlwaysRead(t: seq<CodeUnit>, fit: Decimal -> DoubleFit)
    requires HasDecimalMark(t) && ParseDecimal(t).Ok?
    ensures ParseNumberSpan(t, fit).Ok?
    ensures ParseNumberSpan(t, fit).value == Double(Canonical(ParseDecimal(t).value)) || ParseNumberSpan(t, fit).value == BigDec(ParseDecimal(t).value)
  {
  }

  /** `1e400`, a decimal beyond the range of double. */
  function OverflowText(): (t: seq<CodeUnit>)
    ensures |t| == 5
  {
    [DIGIT_ZERO + 1, LOWER_E, DIGIT_ZERO + 4, DIGIT_ZERO, DIGIT_ZERO]
  }

  /** `1e400` takes the decimal branch and parses as 1 with scale -400. */
  lemma OverflowTextDecimal()
    ensures HasDecimalMark(OverflowText())
    ensures ParseDecimal(OverflowText()) == Ok(Decimal(1, -400))
  {
    var t := OverflowText();
    assert ExponentFrom(t, 0) == 1;
    assert DotFrom(t, 0, 1) == 1;
    assert ValueIn(t, 2, 5) == 400 by {
      assert ValueIn(t, 2, 3) == 4;
      assert ValueIn(t, 2, 4) == 40;
    }
    assert ParseExponent(t, 2) == Ok(400);
    assert ValueIn(t, 0, 1) == 1;
  }

  /**
   * When `1e400` overflows a double, the older version rejects it as an invalid
   * number while the current one keeps it as a BigDecimal.
   */
  lemma LegacyOverflowRejected(fit: Decimal -> DoubleFit)
    requires fit(Decimal(1, -400)) == Overflow
    ensures LegacyParseNumberSpan(OverflowText(), fit) == Err(InvalidNumber)
    ensures ParseNumberSpan(OverflowText(), fit) == Ok(BigDec(Decimal(1, -400)))
  {
    OverflowTextDecimal();
  }

  // ---- Decimal text of an integer, and the round trip through the classifier ----

  function DigitChar(d: nat): (c: CodeUnit)
    requires d < 10
    ensures IsDigit(c) && DigitValue(c) == d
  {
    DIGIT_ZERO + d
  }

  /** The shortest decimal text of a natural number. */
  function NatText(n: nat): seq<CodeUnit>
  {
    if n < 10 then [DigitChar(n)] else NatText(n / 10) + [DigitChar(n % 10)]
  }

  /** The decimal text of an integer: a minus sign for negatives, then the digits. */
  function IntegerText(i: int): seq<CodeUnit>
  {
    if i < 0 then [MINUS] + NatText(-i) else NatText(i)
  }

  lemma {:induction false} NatTextRoundTrip(n: nat)
    ensures |NatText(n)| > 0 && DigitsIn(NatText(n), 0, |NatText(n)|)
    ensures ValueIn(NatText(n), 0, |NatText(n)|) == n
    decreases n
  {
    if n >= 10 {
      NatTextRoundTrip(n / 10);
      var t := NatText(n);
      assert t[..|t| - 1] == NatText(n / 10);
      ValueInSlice(t, 0, |t| - 1);
    }
  }

  /** Reading back the decimal text of any integer gives that integer. */
  lemma IntegerTextRoundTrip(i: int)
    ensures ParseInteger(IntegerText(i)) == Ok(i)
  {
    var t := IntegerText(i);
    if i < 0 {
      NatTextRoundTrip(-i);
      assert t[1..|t|] == NatText(-i);
      assert DigitsIn(t, 1, |t|);
      ValueInSlice(t, 1, |t|);
    } else {
      NatTextRoundTrip(i);
      assert IsDigit(t[0]);
    }
  }

  /**
   * The decimal text of any integer is classified as an Integer when it fits 32
   * bits, as a Long when it fits 64 bits but not 32, and as a BigInteger otherwise,
   * always with the integer's own value, in both versions.
   */
  lemma IntegerTextClassified(i: int, fit: Decimal -> DoubleFit)
    ensures ParseNumberSpan(IntegerText(i), fit) == Ok(ClassifyInteger(i))
    ensures LegacyParseNumberSpan(IntegerText(i), fit) == Ok(ClassifyInteger(i))
  {
    IntegerTextRoundTrip(i);
    NatTextRoundTrip(if i < 0 then -i else i);
    assert !HasDecimalMark(IntegerText(i)) by {
      var t := IntegerText(i);
      forall k | 0 <= k < |t| ensures t[k] != DOT && t[k] != LOWER_E && t[k] != UPPER_E {
        if i < 0 && k > 0 {
          assert t[k] == NatText(-i)[k - 1];
        }
      }
    }
  }
}
