/**
 What a column declares, what Oracle stores in it, and what DuckDB reads from it: when the value read is the
 value stored, and when it is a rounding of it (oracle_types.cpp).
 */
module ColumnValues {
  import opened Arithmetic
  import opened Protocol
  import opened JsonPaths

  const TYPE_VARCHAR2 := 1
  const TYPE_NUMBER := 2
  const TYPE_DATE := 12
  const TYPE_CHAR := 96
  const TYPE_JSON := 119
  const TYPE_TIMESTAMP := 180
  const TYPE_TIMESTAMP_LTZ := 231

  const SECOND := 1_000_000_000

  /** What the user chose for a NUMBER with no declared precision. */
  datatype Unconstrained = AsText | AsDouble | AsDecimal(width: nat, scale: nat)

  datatype ColumnInfo = ColumnInfo(
    oracleType: nat, charsetForm: nat, precision: int, scale: int, unconstrained: Unconstrained)

  /** How a NUMBER is held in DuckDB. */
  datatype Mapping = ToText | ToBigint | ToDecimal(width: nat, scale: nat) | ToDouble

  function MapNumber(column: ColumnInfo): Mapping {
    var precision, scale := column.precision, column.scale;
    if precision >= 1 then
      if scale == 0 && precision <= 18 then ToBigint
      else if -128 < scale < 0 && precision - scale <= 18 then ToBigint
      else if precision <= 38 && 1 <= scale <= precision then ToDecimal(precision, scale)
      else if precision < scale <= 38 then ToDecimal(scale, scale)
      else ToText
    else if column.unconstrained.AsDouble? then ToDouble
    else if column.unconstrained.AsDecimal? then ToDecimal(column.unconstrained.width, column.unconstrained.scale)
    else ToText
  }

  predicate RoundsOnRead(column: ColumnInfo) {
    && column.oracleType == TYPE_NUMBER
    && column.precision < 1
    && (MapNumber(column).ToDecimal? || MapNumber(column).ToDouble?)
  }

  // ----- values

  /** A value as Oracle stores it; an instant in nanoseconds since 1970. An empty text is stored as NULL. */
  datatype Stored = NullStored | StoredNumber(number: real) | StoredInstant(nanoseconds: int)
                  | StoredText(text: string) | StoredJson(document: Json) | StoredOther(image: Bytes)

  /** A value as DuckDB holds it. */
  datatype Value = NullValue | NumberValue(number: real) | InstantValue(nanoseconds: int)
                 | TextValue(text: string) | JsonValue(document: Json) | OtherValue(image: Bytes)

  function Power(n: nat): (p: int)
    ensures p >= 1
  {
    if n == 0 then 1 else 10 * Power(n - 1)
  }

  /** The number with `unscaled` as its digits and `scale` of them after the point. */
  function Scaled(unscaled: int, scale: int): real {
    if scale >= 0 then unscaled as real / Power(scale) as real else (unscaled * Power(-scale)) as real
  }

  /** A number that NUMBER(precision, scale) can hold. */
  ghost predicate Fits(number: real, precision: nat, scale: int) {
    exists unscaled: int :: Holds(unscaled, number, precision, scale)
  }

  predicate Holds(unscaled: int, number: real, precision: nat, scale: int) {
    -Power(precision) < unscaled < Power(precision) && number == Scaled(unscaled, scale)
  }

  /** What a column of this declaration may hold. */
  ghost predicate Storable(stored: Stored, column: ColumnInfo) {
    || stored.NullStored?
    || (column.oracleType == TYPE_NUMBER && stored.StoredNumber?
        && (column.precision >= 1 ==> Fits(stored.number, column.precision, column.scale)))
    || (column.oracleType == TYPE_DATE && stored.StoredInstant? && stored.nanoseconds % SECOND == 0)
    || (column.oracleType in {TYPE_TIMESTAMP, TYPE_TIMESTAMP_LTZ} && stored.StoredInstant?)
    || (column.oracleType in {TYPE_VARCHAR2, TYPE_CHAR} && stored.StoredText? && stored.text != "")
    || (column.oracleType == TYPE_JSON && stored.StoredJson?)
    || (column.oracleType !in {TYPE_NUMBER, TYPE_DATE, TYPE_TIMESTAMP, TYPE_TIMESTAMP_LTZ, TYPE_VARCHAR2, TYPE_CHAR,
                               TYPE_JSON}
        && (stored.StoredOther? || stored.StoredText?))
  }

  // ----- reading

  /** The nearest number with `scale` digits after the point, halves away from zero, as its digits. */
  function Nearest(number: real, scale: nat): int {
    var digits := number * Power(scale) as real;
    if digits >= 0.0 then (digits + 0.5).Floor else -((-digits + 0.5).Floor)
  }

  /** The integer part, towards zero. */
  function Truncated(number: real): int {
    if number >= 0.0 then number.Floor else -((-number).Floor)
  }

  /** What is outside this model: the text of a number and the nearest DOUBLE. */
  datatype Conversions = Conversions(digits: real -> string, toDouble: real -> real)

  /** What DuckDB reads from a NUMBER; nothing when the value does not fit the mapping. */
  function ReadNumber(number: real, mapping: Mapping, engine: Conversions): Option<Value> {
    match mapping
    case ToText => Some(TextValue(engine.digits(number)))
    case ToDouble => Some(NumberValue(engine.toDouble(number)))
    case ToBigint =>
      var whole := Truncated(number);
      if INT64_MIN <= whole <= INT64_MAX then Some(NumberValue(whole as real)) else None
    case ToDecimal(width, scale) =>
      var digits := Nearest(number, scale);
      if -Power(width) < digits < Power(width) then Some(NumberValue(Scaled(digits, scale))) else None
  }

  /** Whether a timestamp column is held in nanoseconds. */
  predicate KeepsNanoseconds(column: ColumnInfo) {
    column.oracleType == TYPE_TIMESTAMP && column.scale > 6
  }

  /** What DuckDB reads from a column; nothing when reading raises an error. */
  function ReadValue(stored: Stored, column: ColumnInfo, engine: Conversions): Option<Value> {
    match stored
    case NullStored => Some(NullValue)
    case StoredNumber(number) => ReadNumber(number, MapNumber(column), engine)
    case StoredInstant(nanoseconds) =>
      if KeepsNanoseconds(column) then
        if INT64_MIN <= nanoseconds <= INT64_MAX then Some(InstantValue(nanoseconds)) else None
      else if nanoseconds % 1000 == 0 then Some(InstantValue(nanoseconds)) else None
    case StoredText(text) => Some(TextValue(text))
    case StoredJson(document) => Some(JsonValue(document))
    case StoredOther(image) => Some(OtherValue(image))
  }

  // ----- what the value read says about the value stored

  lemma {:induction false} PowerSplits(a: nat, b: nat)
    ensures Power(a + b) == Power(a) * Power(b)
  {
    if a > 0 {
      PowerSplits(a - 1, b);
      calc {
        Power(a + b);
        10 * Power(a - 1 + b);
        10 * (Power(a - 1) * Power(b));
        (10 * Power(a - 1)) * Power(b);
      }
    }
  }

  lemma {:induction false} PowerGrows(a: nat, b: nat)
    requires a <= b
    ensures Power(a) <= Power(b)
  {
    if a < b {
      PowerGrows(a, b - 1);
    }
  }

  lemma PowerOf18()
    ensures Power(18) == 1_000_000_000_000_000_000
  {
    assert Power(6) == 1_000_000;
    PowerSplits(6, 6);
    PowerSplits(6, 12);
  }

  /** Scaling undone: no digit of the stored number is lost. */
  lemma ScaledBack(unscaled: int, scale: nat)
    ensures Scaled(unscaled, scale) * Power(scale) as real == unscaled as real
    ensures Nearest(Scaled(unscaled, scale), scale) == unscaled
  {
    hide Power;
    DivideAndMultiply(unscaled as real, Power(scale) as real);
    NearestInteger(unscaled);
  }

  lemma NearestInteger(n: int)
    ensures if n as real >= 0.0 then (n as real + 0.5).Floor == n else -((-(n as real) + 0.5).Floor) == n
  {
    if n >= 0 {
      assert n as real <= n as real + 0.5 < (n + 1) as real;
    } else {
      assert -(n as real) == (-n) as real;
      assert (-n) as real <= (-n) as real + 0.5 < (-n + 1) as real;
    }
  }

  lemma DivideAndMultiply(x: real, p: real)
    requires p != 0.0
    ensures x / p * p == x
  {
  }

  lemma BigintExact(number: real, precision: nat, scale: int, unscaled: int, engine: Conversions)
    requires Holds(unscaled, number, precision, scale)
    requires scale <= 0 && precision - scale <= 18
    ensures ReadNumber(number, ToBigint, engine) == Some(NumberValue(number))
  {
    var k := -scale;
    var whole := unscaled * Power(k);
    assert number == whole as real by {
      assert unscaled as real / 1.0 == unscaled as real;
    }
    assert Truncated(number) == whole;
    PowerSplits(precision, k);
    PowerGrows(precision + k, 18);
    PowerOf18();
    ProductBelow(unscaled, Power(precision), Power(k));
  }

  lemma ProductBelow(a: int, bound: int, factor: int)
    requires -bound < a < bound && factor >= 1
    ensures -(bound * factor) < a * factor < bound * factor
  {
  }

  lemma DecimalExact(number: real, precision: nat, scale: nat, width: nat, unscaled: int, engine: Conversions)
    requires Holds(unscaled, number, precision, scale) && precision <= width
    ensures ReadNumber(number, ToDecimal(width, scale), engine) == Some(NumberValue(number))
  {
    ScaledBack(unscaled, scale);
    PowerGrows(precision, width);
  }

  /** Every NUMBER with a declared precision that is not read as text is read without losing a digit. */
  lemma DeclaredNumberExact(number: real, column: ColumnInfo, engine: Conversions)
    requires column.precision >= 1 && Fits(number, column.precision, column.scale)
    ensures MapNumber(column).ToText? || ReadNumber(number, MapNumber(column), engine) == Some(NumberValue(number))
  {
    var unscaled :| Holds(unscaled, number, column.precision, column.scale);
    match MapNumber(column)
    case ToText =>
    case ToBigint => BigintExact(number, column.precision, column.scale, unscaled, engine);
    case ToDecimal(width, scale) => DecimalExact(number, column.precision, scale, width, unscaled, engine);
  }

  /** What the test for rounding promises: a number read from a column that passes it is the number stored. */
  lemma ReadsExactly(stored: Stored, column: ColumnInfo, engine: Conversions)
    requires Storable(stored, column) && stored.StoredNumber? && !RoundsOnRead(column)
    ensures ReadValue(stored, column, engine)
         == Some(if MapNumber(column).ToText? then TextValue(engine.digits(stored.number)) else NumberValue(stored.number))
  {
    if column.precision >= 1 {
      DeclaredNumberExact(stored.number, column, engine);
    }
  }

  /** And a column that fails it does round: 1.21 and 1.2 read the same under DECIMAL(10, 1). */
  lemma RoundingLosesOrder(engine: Conversions)
    ensures var column := ColumnInfo(TYPE_NUMBER, 1, 0, -127, AsDecimal(10, 1));
      && Storable(StoredNumber(1.21), column)
      && RoundsOnRead(column)
      && ReadValue(StoredNumber(1.21), column, engine) == Some(NumberValue(1.2))
      && ReadValue(StoredNumber(1.2), column, engine) == Some(NumberValue(1.2))
  {
    assert Power(1) == 10;
    PowerGrows(2, 10);
    assert Power(2) == 100;
  }
}
