/** The decoded values, the failures the decoder can raise, and a Result wrapper. */
module Values {
  import opened Chars

  /** A `java.math.BigDecimal`: `unscaled * 10^(-scale)`. */
  datatype Decimal = Decimal(unscaled: int, scale: int)

  /**
   * What the decimal branch of `parseNumber` finds when it converts a decimal to a
   * binary64 `double`: `BigDecimal.valueOf` of the nearest double (its shortest
   * decimal form) compares equal to the decimal, it does not, or the double is infinite.
   * The conversion itself is not modelled; the decoder receives it as a parameter.
   */
  datatype DoubleFit = Exact | Inexact | Overflow

  type Key = seq<CodeUnit>

  /**
   * A decoded JSON value: what `readValue` hands to its consumer.
   * `Null` is Java's `null`; `Double(d)` is the double whose shortest decimal form is `d`
   * (trailing zeros stripped).
   */
  datatype Value =
    | Null
    | Bool(b: bool)
    | Str(s: seq<CodeUnit>)
    | Int32(i: int)
    | Int64(i: int)
    | BigInt(i: int)
    | Double(d: Decimal)
    | BigDec(d: Decimal)
    | Obj(fields: map<Key, Value>)
    | Arr(elems: seq<Value>)

  /** The exceptions the decoder and the node wrapper throw, by kind. */
  datatype Error =
    | EndOfInput          // JsonWheelException: no such character up to the end of the buffer
    | InvalidLiteral      // JsonWheelException: a letter run is not the expected literal
    | InvalidNumber       // JsonWheelException: the number span does not parse
    | InvalidEscape       // JsonWheelException: a backslash before a character outside the table
    | TruncatedCodePoint  // JsonWheelException: fewer than four characters follow `\u`
    | OutOfBounds         // JsonWheelException: a string range outside the buffer
    | MalformedHex        // NumberFormatException from Integer.parseInt on a `\u` escape
    | IllegalCodePoint    // IllegalArgumentException from StringBuilder.appendCodePoint
    | IndexOutOfBounds    // ArrayIndexOutOfBoundsException / StringIndexOutOfBoundsException
    | ClassCast           // ClassCastException in the node wrapper
    | NullPointer         // NullPointerException in the node wrapper

  datatype Result<+T> = Ok(value: T) | Err(error: Error) {
    predicate IsFailure() {
      Err?
    }

    function PropagateFailure<U>(): Result<U>
      requires Err?
    {
      Err(error)
    }

    function Extract(): T
      requires Ok?
    {
      value
    }
  }
}
