/** The key-value table behind the watermarks and the ledger: values are stored as text with
    their type, and read back by type. */
module KeyValueStore {
  import opened Results
  import opened Text

  /** The value types the table accepts; numbers are the integers the services store. */
  datatype Value = Boolean(b: bool) | Number(n: int) | BigInt(big: int) | String(s: string) | Undefined

  datatype ValueType = BooleanType | NumberType | BigIntType | StringType | UndefinedType

  datatype Row = Row(value: Option<string>, valueType: ValueType)

  /** `set`: the row it writes. */
  function RowOf(v: Value): (row: Row) {
    match v
    case Boolean(b) => Row(Some(if b then "true" else "false"), BooleanType)
    case Number(n) => Row(Some(Decimal(n)), NumberType)
    case BigInt(n) => Row(Some(Decimal(n)), BigIntType)
    case String(s) => Row(Some(s), StringType)
    case Undefined => Row(None, UndefinedType)
  }

  /** `formatValue`. Every non-empty text is truthy. */
  function FormatValue(value: Option<string>, valueType: ValueType): (r: Result<Value>) {
    match valueType
    case BooleanType => Ok(Boolean(value.Some? && value.value != ""))
    case NumberType =>
      if value == Some("") then Ok(Number(0))
      else if value.Some? && ParseDecimal(value.value).Ok? then Ok(Number(ParseDecimal(value.value).value))
      else Err("NaN")
    case BigIntType =>
      if value == Some("") then Ok(BigInt(0))
      else if value.Some? && ParseDecimal(value.value).Ok? then Ok(BigInt(ParseDecimal(value.value).value))
      else Err("SyntaxError")
    case StringType => if value.Some? then Ok(String(value.value)) else Ok(String("null"))
    case UndefinedType => Ok(Undefined)
  }

  /** What a row holds: the text of the value, a number's being the one without a plus sign or leading
      zeros, and its type. */
  lemma StoredText(v: Value)
    ensures match v
            case Boolean(b) => RowOf(v) == Row(Some(if b then "true" else "false"), BooleanType)
            case Number(n) =>
              RowOf(v).valueType == NumberType && RowOf(v).value.Some? &&
              CanonicalDecimal(RowOf(v).value.value) && DenotesInt(RowOf(v).value.value, n)
            case BigInt(n) =>
              RowOf(v).valueType == BigIntType && RowOf(v).value.Some? &&
              CanonicalDecimal(RowOf(v).value.value) && DenotesInt(RowOf(v).value.value, n)
            case String(s) => RowOf(v) == Row(Some(s), StringType)
            case Undefined => RowOf(v) == Row(None, UndefinedType)
  {
    if v.Number? || v.BigInt? {
      var n := if v.Number? then v.n else v.big;
      ParseUndoesDecimal(n);
      ParseDecimalIff(Decimal(n), n);
    }
  }

  /** What reading a text gives: the number it denotes, with an empty text for zero. */
  lemma ReadNumberIff(s: string, n: int)
    ensures FormatValue(Some(s), NumberType) == Ok(Number(n)) <==> DenotesInt(s, n) || (s == "" && n == 0)
    ensures FormatValue(Some(s), BigIntType) == Ok(BigInt(n)) <==> DenotesInt(s, n) || (s == "" && n == 0)
  {
    ParseDecimalIff(s, n);
  }

  /** Reading back what was written gives the same value exactly for everything but `false`,
      whose text is truthy. */
  lemma StoreRoundTripIff(v: Value)
    ensures FormatValue(RowOf(v).value, RowOf(v).valueType) == Ok(v) <==> v != Boolean(false)
  {
    match v
    case Number(n) => ParseUndoesDecimal(n);
    case BigInt(n) => ParseUndoesDecimal(n);
    case _ =>
  }
}
