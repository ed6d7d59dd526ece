/** The vocabulary shared by the registry and the parsers: the `Class` keys the
    registry is indexed by, the mapper instances it stores, and the outcome of a
    `parse` call. */
module Types {
  import opened JavaText

  /** A `Class` object used as a registry key. The nineteen named constructors are
      the classes `DefaultStringParsers.get()` registers: boxed classes under
      their Java name, primitive classes (`byte.class`, ...) with a `Prim`
      prefix. `Other(name)` stands for any class outside those nineteen. */
  datatype TypeKey =
    | Byte | PrimByte
    | Short | PrimShort
    | Integer | PrimInt
    | Long | PrimLong
    | Float | PrimFloat
    | Double | PrimDouble
    | BigInteger
    | BigDecimal
    | Character | PrimChar
    | Boolean | PrimBoolean
    | UUID
    | Other(name: string)

  /** One `StringMapper` instance. Each `addType` call creates exactly one
      anonymous mapper, so the instances are told apart by the type they parse. */
  datatype MapperKind =
    | ByteMapper
    | ShortMapper
    | IntegerMapper
    | LongMapper
    | FloatMapper
    | DoubleMapper
    | BigIntegerMapper
    | BigDecimalMapper
    | CharacterMapper
    | BooleanMapper
    | UuidMapper

  datatype Option<T> = None | Some(value: T)

  /** The `IllegalArgumentException` thrown by `UUID.fromString`; only its
      identity matters here, so it records the rejected text. */
  datatype IllegalArgument = IllegalArgument(input: JString)

  /** Why a `parse` call did not return a value.
      - `CannotCast`: the `ParserException` built by `newException(clazz, input)`;
        its message is formatted from exactly these two fields.
      - `InvalidUuid`: the `ParserException("not a valid uuid", e)` that wraps the
        exception `UUID.fromString` threw.
      - `NumberFormat`: the `NumberFormatException` thrown by the JDK's integer
        parsers, which this class does not catch. */
  datatype Failure =
    | CannotCast(target: TypeKey, input: JString)
    | InvalidUuid(cause: IllegalArgument)
    | NumberFormat(input: JString)
  {
    /** True when the failure reaches the caller as a `ParserException`. */
    predicate IsParserException() {
      CannotCast? || InvalidUuid?
    }
  }

  /** The outcome of `parse`: the value, or the exception it throws. */
  datatype Result<T> = Ok(value: T) | Err(failure: Failure)
}
