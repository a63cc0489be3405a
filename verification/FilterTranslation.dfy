/**
 Translating a DuckDB filter on one column into an Oracle predicate, or refusing to (oracle_filter.cpp). What
 is accepted has the same three-valued meaning in both engines: Oracle's over the value it stores, DuckDB's over
 the value it reads.
 */
module FilterTranslation {
  import opened Arithmetic
  import opened Protocol
  import opened JsonPaths
  import opened ColumnValues
  import opened SqlText

  const MAX_IN_VALUES: nat := 16384
  // the first and last second of the years 1 to 9999
  const FIRST_SECOND := -62135596800
  const LAST_SECOND := 253402300799
  const INFINITE_MICROS := INT64_MAX

  datatype Op = Equal | NotEqual | Less | LessOrEqual | Greater | GreaterOrEqual | DistinctFrom

  /** A constant of a filter; timestamps as DuckDB counts them. */
  datatype Constant = NullConstant | Numeric(number: real) | Micros(count: int64) | Nanos(count: int64)
                    | Text(text: string) | OtherConstant(image: Bytes)

  /** A bound expression. `Extract` is json_extract_string; a reference is to one of the filter's columns. */
  datatype Expr = Reference(index: nat) | Literal(constant: Constant) | Extract(subject: Expr, path: Expr)
                | Comparison(op: Op, left: Expr, right: Expr) | NullTest(negated: bool, children: seq<Expr>)
                | In(children: seq<Expr>) | Conjunction(all: bool, children: seq<Expr>)
                | Optional(child: Option<Expr>) | Call(name: string, children: seq<Expr>) | OtherExpr(name: string)

  // ----- what is sent

  datatype OracleLiteral = NumberLiteral(number: real) | InstantLiteral(nanoseconds: int) | TextLiteral(text: string)

  datatype ColumnTest = Compares(op: Op, literal: OracleLiteral) | InList(literals: seq<OracleLiteral>)
                      | Within(low: OracleLiteral, high: OracleLiteral)
                      | IsNull | IsNotNull
                      | JsonEquals(path: string, text: string) | JsonIn(path: string, texts: seq<string>)
                      | JsonExists(path: string)

  /** A test on the column of that number in the table. */
  datatype Placed = Placed(column: nat, test: ColumnTest)

  // ----- literals

  /** A timestamp literal from microseconds and the nanoseconds below them. */
  function TimestampLiteral(micros: int, nanos: nat, column: ColumnInfo): Option<OracleLiteral> {
    var seconds := micros / 1_000_000;
    var below := micros % 1_000_000 * 1000 + nanos;
    if micros == INFINITE_MICROS || micros == -INFINITE_MICROS then None
    else if !(FIRST_SECOND <= seconds <= LAST_SECOND) then None
    else if column.oracleType == TYPE_DATE then if below != 0 then None else Some(InstantLiteral(seconds * SECOND))
    else Some(InstantLiteral(seconds * SECOND + below))
  }

  /** The literal for a constant compared with a column; nothing when it is refused. */
  function LiteralFor(constant: Constant, column: ColumnInfo): Option<OracleLiteral> {
    match constant
    case NullConstant => None
    case Numeric(number) =>
      if column.oracleType != TYPE_NUMBER || RoundsOnRead(column) then None else Some(NumberLiteral(number))
    case Micros(count) =>
      if column.oracleType !in {TYPE_DATE, TYPE_TIMESTAMP} then None else TimestampLiteral(count, 0, column)
    case Nanos(count) =>
      if column.oracleType !in {TYPE_DATE, TYPE_TIMESTAMP} then None
      else TimestampLiteral(count / 1000, count % 1000, column)
    case Text(text) =>
      if text == "" || column.oracleType != TYPE_VARCHAR2 || column.charsetForm == 2 || '\0' in text then None
      else Some(TextLiteral(text))
    case OtherConstant(_) => None
  }

  /** C++ division: towards zero. */
  function Quotient(a: int, b: int): int
    requires b > 0
  {
    if a >= 0 then a / b else -((-a) / b)
  }

  /** Microseconds and the nanoseconds below them, from a division that truncates. */
  method SplitNanoseconds(value: int) returns (whole: int, remainder: int)
    ensures whole == value / 1000 && remainder == value % 1000
  {
    whole := Quotient(value, 1000);
    remainder := value - 1000 * whole;
    if remainder < 0 {
      remainder := remainder + 1000;
      whole := whole - 1;
    }
  }

  /** Whether a comparison is sent for a column: an order on text depends on the session, so it is not. */
  predicate Comparable(op: Op, column: ColumnInfo) {
    match op
    case Equal => true
    case NotEqual => true
    case DistinctFrom => false
    case _ => column.oracleType in {TYPE_NUMBER, TYPE_DATE, TYPE_TIMESTAMP}
  }

  // ----- the translation

  /** The lists one IN list is sent as: a thousand values in each, the rest in the last. */
  function Groups(literals: seq<OracleLiteral>): (groups: seq<seq<OracleLiteral>>)
    requires literals != []
    ensures groups != []
    ensures forall i :: 0 <= i < |groups| ==> 0 < |groups[i]| <= MAX_IN_LIST_VALUES
    ensures |groups| > 1 <==> |literals| > MAX_IN_LIST_VALUES
    decreases |literals|
  {
    if |literals| <= MAX_IN_LIST_VALUES then [literals]
    else [literals[..MAX_IN_LIST_VALUES]] + Groups(literals[MAX_IN_LIST_VALUES..])
  }

  lemma Flushed(rest: seq<OracleLiteral>, list: seq<OracleLiteral>)
    requires |rest| > MAX_IN_LIST_VALUES && list == rest[..MAX_IN_LIST_VALUES]
    ensures Groups(rest) == [list] + Groups(rest[MAX_IN_LIST_VALUES..])
  {
  }

  /** The loop that fills a list and flushes it when it is full. */
  method GroupLiterals(literals: seq<OracleLiteral>) returns (groups: seq<seq<OracleLiteral>>)
    requires literals != []
    ensures groups == Groups(literals)
  {
    hide Groups;
    groups := [];
    var list := [literals[0]];
    ghost var start := 0;
    for i := 1 to |literals|
      invariant start == i - |list| && 0 <= start < i && list == literals[start..i] && |list| <= MAX_IN_LIST_VALUES
      invariant Groups(literals) == groups + Groups(literals[start..])
    {
      if |list| == MAX_IN_LIST_VALUES {
        Flushed(literals[start..], list);
        assert literals[start..][MAX_IN_LIST_VALUES..] == literals[i..];
        groups := groups + [list];
        list := [];
        start := i;
      }
      list := list + [literals[i]];
    }
    assert literals[start..] == list;
    LastGroup(list);
    groups := groups + [list];
  }

  lemma LastGroup(list: seq<OracleLiteral>)
    requires 0 < |list| <= MAX_IN_LIST_VALUES
    ensures Groups(list) == [list]
  {
  }

  function InTests(groups: seq<seq<OracleLiteral>>, name: nat): (tests: seq<Sql<Placed>>)
    ensures |tests| == |groups|
    ensures forall i :: 0 <= i < |groups| ==> tests[i] == Test(Placed(name, InList(groups[i])))
  {
    if groups == [] then [] else [Test(Placed(name, InList(groups[0])))] + InTests(groups[1..], name)
  }

  function LiteralsFor(children: seq<Expr>, column: ColumnInfo): (r: Option<seq<OracleLiteral>>)
    ensures r.Some? ==> |r.value| == |children|
    ensures r.Some? ==> forall i :: 0 <= i < |children| ==>
      children[i].Literal? && LiteralFor(children[i].constant, column) == Some(r.value[i])
  {
    if children == [] then Some([])
    else if !children[0].Literal? then None
    else
      var first := LiteralFor(children[0].constant, column);
      var rest := LiteralsFor(children[1..], column);
      if first.None? || rest.None? then None else Some([first.value] + rest.value)
  }

  /** The predicate for an expression on the column of number `name`; nothing when it is refused. */
  function Translate(e: Expr, column: ColumnInfo, name: nat): Option<Sql<Placed>>
    decreases e
  {
    match e
    case Optional(child) => if child.None? then None else Translate(child.value, column, name)
    case Comparison(op, left, right) =>
      if left != Reference(0) || !right.Literal? || !Comparable(op, column) then None
      else
        var literal := LiteralFor(right.constant, column);
        if literal.None? then None else Some(Test(Placed(name, Compares(op, literal.value))))
    case NullTest(negated, children) =>
      if |children| != 1 || children[0] != Reference(0) then None
      else Some(Test(Placed(name, if negated then IsNotNull else IsNull)))
    case In(children) =>
      if |children| < 2 || children[0] != Reference(0) || |children| - 1 > MAX_IN_VALUES then None
      else
        var literals := LiteralsFor(children[1..], column);
        if literals.None? then None
        else if |literals.value| > MAX_IN_LIST_VALUES then Some(Any(InTests(Groups(literals.value), name)))
        else Some(Test(Placed(name, InList(literals.value))))
    case Conjunction(all, children) =>
      var parts := TranslateAll(children, column, name);
      if parts.None? || parts.value == [] then None
      else Some(if all then All(parts.value) else Any(parts.value))
    case _ => None
  }

  function TranslateAll(children: seq<Expr>, column: ColumnInfo, name: nat): (r: Option<seq<Sql<Placed>>>)
    ensures r.Some? ==> |r.value| == |children|
    ensures r.Some? ==> forall i :: 0 <= i < |children| ==> Translate(children[i], column, name) == Some(r.value[i])
    decreases children
  {
    if children == [] then Some([])
    else
      var first := Translate(children[0], column, name);
      var rest := TranslateAll(children[1..], column, name);
      if first.None? || rest.None? then None else Some([first.value] + rest.value)
  }

  // ----- what both engines make of a comparison

  /** Everything about the two engines that this model leaves open. */
  datatype Engines = Engines(
    conversions: Conversions,
    renderings: Renderings,
    collation: (Op, string, string) -> Truth,
    oracleMixed: (Op, Stored, OracleLiteral) -> Truth,
    duckMixed: (Op, Value, Value) -> Truth,
    duckValue: (Expr, Value) -> Value,
    duckTruth: (Expr, Value) -> Truth)

  function Decided(holds: bool): Truth {
    if holds then True else False
  }

  function CompareNumbers(op: Op, a: real, b: real): Truth {
    match op
    case Equal => Decided(a == b)
    case NotEqual => Decided(a != b)
    case Less => Decided(a < b)
    case LessOrEqual => Decided(a <= b)
    case Greater => Decided(a > b)
    case GreaterOrEqual => Decided(a >= b)
    case DistinctFrom => Decided(a != b)
  }

  function CompareInstants(op: Op, a: int, b: int): Truth {
    CompareNumbers(op, a as real, b as real)
  }

  /** A text without the blanks at its end. */
  function Unpadded(text: string): string {
    if text != "" && text[|text| - 1] == ' ' then Unpadded(text[..|text| - 1]) else text
  }

  /** Oracle: an empty text is NULL, a CHAR is compared without its padding, and an order on text follows the
      session's collation. */
  function OracleCompares(op: Op, stored: Stored, column: ColumnInfo, literal: OracleLiteral, engines: Engines): Truth {
    if stored.NullStored? || literal == TextLiteral("") then Unknown
    else if stored.StoredNumber? && literal.NumberLiteral? then CompareNumbers(op, stored.number, literal.number)
    else if stored.StoredInstant? && literal.InstantLiteral? then
      CompareInstants(op, stored.nanoseconds, literal.nanoseconds)
    else if stored.StoredText? && literal.TextLiteral? && column.charsetForm != 2 && op.Equal? then
      if column.oracleType == TYPE_CHAR then Decided(Unpadded(stored.text) == Unpadded(literal.text))
      else Decided(stored.text == literal.text)
    else if stored.StoredText? && literal.TextLiteral? && column.charsetForm != 2 && op.NotEqual? then
      if column.oracleType == TYPE_CHAR then Decided(Unpadded(stored.text) != Unpadded(literal.text))
      else Decided(stored.text != literal.text)
    else if stored.StoredText? && literal.TextLiteral? then engines.collation(op, stored.text, literal.text)
    else engines.oracleMixed(op, stored, literal)
  }

  function OracleEqualities(stored: Stored, column: ColumnInfo, literals: seq<OracleLiteral>, engines: Engines): (t: seq<Truth>)
    ensures |t| == |literals|
    ensures forall i :: 0 <= i < |t| ==> t[i] == OracleCompares(Equal, stored, column, literals[i], engines)
  {
    if literals == [] then []
    else [OracleCompares(Equal, stored, column, literals[0], engines)]
         + OracleEqualities(stored, column, literals[1..], engines)
  }

  function TextEqualities(found: Option<string>, texts: seq<string>): (t: seq<Truth>)
    ensures |t| == |texts|
    ensures forall i :: 0 <= i < |t| ==> t[i] == TextEquals(found, texts[i])
  {
    if texts == [] then [] else [TextEquals(found, texts[0])] + TextEqualities(found, texts[1..])
  }

  function TextEquals(found: Option<string>, text: string): Truth {
    if found.None? || text == "" then Unknown else Decided(found.value == text)
  }

  /** What Oracle's JSON_VALUE returns for a stored value. */
  function OracleScalar(stored: Stored, path: string, engines: Engines): Option<string> {
    if stored.StoredJson? && SimplePath(path).Some? then
      ScalarText(Matches(stored.document, SimplePath(path).value), engines.renderings)
    else None
  }

  /** A test on one column, as Oracle evaluates it over the stored value. */
  function OracleTruth(test: ColumnTest, stored: Stored, column: ColumnInfo, engines: Engines): Truth {
    match test
    case Compares(op, literal) => OracleCompares(op, stored, column, literal, engines)
    case InList(literals) => AnyOf(OracleEqualities(stored, column, literals, engines))
    case Within(low, high) => AndOf(OracleCompares(GreaterOrEqual, stored, column, low, engines),
                                    OracleCompares(LessOrEqual, stored, column, high, engines))
    case IsNull => Decided(stored.NullStored?)
    case IsNotNull => Decided(!stored.NullStored?)
    case JsonEquals(path, text) => TextEquals(OracleScalar(stored, path, engines), text)
    case JsonIn(path, texts) => AnyOf(TextEqualities(OracleScalar(stored, path, engines), texts))
    case JsonExists(path) =>
      Decided(stored.StoredJson? && SimplePath(path).Some? && Matches(stored.document, SimplePath(path).value) != [])
  }

  /** The tests of a predicate over a row of the table. */
  function RowTester(columns: seq<ColumnInfo>, row: seq<Stored>, engines: Engines): Placed -> Truth {
    (atom: Placed) =>
      if atom.column < |columns| && atom.column < |row| then
        OracleTruth(atom.test, row[atom.column], columns[atom.column], engines)
      else Unknown
  }

  // ----- DuckDB

  function DuckCompares(op: Op, a: Value, b: Value, engines: Engines): Truth {
    if op.DistinctFrom? then Decided(a != b)
    else if a.NullValue? || b.NullValue? then Unknown
    else if a.NumberValue? && b.NumberValue? then CompareNumbers(op, a.number, b.number)
    else if a.InstantValue? && b.InstantValue? then CompareInstants(op, a.nanoseconds, b.nanoseconds)
    else if a.TextValue? && b.TextValue? && op.Equal? then Decided(a.text == b.text)
    else if a.TextValue? && b.TextValue? && op.NotEqual? then Decided(a.text != b.text)
    else engines.duckMixed(op, a, b)
  }

  function ConstantValue(constant: Constant): Value {
    match constant
    case NullConstant => NullValue
    case Numeric(number) => NumberValue(number)
    case Micros(count) => InstantValue(count * 1000)
    case Nanos(count) => InstantValue(count)
    case Text(text) => TextValue(text)
    case OtherConstant(image) => OtherValue(image)
  }

  /** The path of a json_extract_string(column, 'path') with a path of the simple form. */
  function ExtractedPath(e: Expr): Option<string> {
    if e.Extract? && e.subject == Reference(0) && e.path.Literal? && e.path.constant.Text?
       && SimplePath(e.path.constant.text).Some?
    then Some(e.path.constant.text) else None
  }

  /** The value of an expression where the filter's column reads as `value`. */
  function DuckValue(e: Expr, value: Value, engines: Engines): Value {
    if e == Reference(0) then value
    else if e.Literal? then ConstantValue(e.constant)
    else if ExtractedPath(e).Some? && (value.JsonValue? || value.NullValue?) then
      var text := DuckExtracts(value, ExtractedPath(e).value, engines);
      if text.None? then NullValue else TextValue(text.value)
    else engines.duckValue(e, value)
  }

  /** What json_extract_string returns for a value read. */
  function DuckExtracts(value: Value, path: string, engines: Engines): Option<string> {
    if value.JsonValue? && SimplePath(path).Some? then
      ExtractText(Find(value.document, SimplePath(path).value), engines.renderings)
    else None
  }

  function DuckEqualities(subject: Value, children: seq<Expr>, value: Value, engines: Engines): (t: seq<Truth>)
    ensures |t| == |children|
    ensures forall i :: 0 <= i < |t| ==>
      t[i] == DuckCompares(Equal, subject, DuckValue(children[i], value, engines), engines)
  {
    if children == [] then []
    else [DuckCompares(Equal, subject, DuckValue(children[0], value, engines), engines)]
         + DuckEqualities(subject, children[1..], value, engines)
  }

  /** The truth of an expression where the filter's column reads as `value`. */
  function DuckTruth(e: Expr, value: Value, engines: Engines): Truth
    decreases e
  {
    match e
    case Optional(child) => if child.None? then True else DuckTruth(child.value, value, engines)
    case Comparison(op, left, right) =>
      DuckCompares(op, DuckValue(left, value, engines), DuckValue(right, value, engines), engines)
    case NullTest(negated, children) =>
      if |children| != 1 then engines.duckTruth(e, value)
      else Decided(DuckValue(children[0], value, engines).NullValue? != negated)
    case In(children) =>
      if children == [] then engines.duckTruth(e, value)
      else AnyOf(DuckEqualities(DuckValue(children[0], value, engines), children[1..], value, engines))
    case Conjunction(all, children) =>
      var truths := DuckTruths(children, value, engines);
      if all then AllOf(truths) else AnyOf(truths)
    case _ => engines.duckTruth(e, value)
  }

  function DuckTruths(children: seq<Expr>, value: Value, engines: Engines): (t: seq<Truth>)
    ensures |t| == |children|
    ensures forall i :: 0 <= i < |t| ==> t[i] == DuckTruth(children[i], value, engines)
    decreases children
  {
    if children == [] then [] else [DuckTruth(children[0], value, engines)] + DuckTruths(children[1..], value, engines)
  }

  // ----- what DuckDB's binder promises

  /** A constant has the type the column is held as. */
  predicate ConstantFits(constant: Constant, column: ColumnInfo) {
    || constant.NullConstant?
    || (column.oracleType == TYPE_NUMBER && !MapNumber(column).ToText? && constant.Numeric?)
    || (column.oracleType == TYPE_NUMBER && MapNumber(column).ToText? && constant.Text?)
    || (column.oracleType in {TYPE_DATE, TYPE_TIMESTAMP} && KeepsNanoseconds(column) && constant.Nanos?)
    || (column.oracleType in {TYPE_DATE, TYPE_TIMESTAMP} && !KeepsNanoseconds(column) && constant.Micros?)
    || (column.oracleType !in {TYPE_NUMBER, TYPE_DATE, TYPE_TIMESTAMP} && (constant.Text? || constant.OtherConstant?))
  }

  /** The column itself is only compared with constants of its own type. */
  predicate WellTyped(e: Expr, column: ColumnInfo)
    decreases e
  {
    match e
    case Optional(child) => child.Some? ==> WellTyped(child.value, column)
    case Comparison(op, left, right) =>
      left == Reference(0) && right.Literal? ==> ConstantFits(right.constant, column)
    case In(children) =>
      |children| > 0 && children[0] == Reference(0) ==>
        forall i :: 0 < i < |children| && children[i].Literal? ==> ConstantFits(children[i].constant, column)
    case Conjunction(_, children) => forall i :: 0 <= i < |children| ==> WellTyped(children[i], column)
    case _ => true
  }

  // ----- the translation means the same

  /** A literal that is sent names the constant it was made from. */
  lemma TimestampExact(micros: int, nanos: nat, column: ColumnInfo)
    requires TimestampLiteral(micros, nanos, column).Some?
    ensures TimestampLiteral(micros, nanos, column).value == InstantLiteral(micros * 1000 + nanos)
  {
  }

  lemma ComparisonAgrees(op: Op, constant: Constant, stored: Stored, column: ColumnInfo, value: Value, engines: Engines)
    requires Storable(stored, column) && ReadValue(stored, column, engines.conversions) == Some(value)
    requires ConstantFits(constant, column) && Comparable(op, column) && LiteralFor(constant, column).Some?
    ensures OracleCompares(op, stored, column, LiteralFor(constant, column).value, engines)
         == DuckCompares(op, value, ConstantValue(constant), engines)
  {
    hide RoundsOnRead, MapNumber, Fits, TimestampLiteral, ReadNumber;
    match constant
    case Numeric(number) =>
      if stored.StoredNumber? {
        ReadsExactly(stored, column, engines.conversions);
      }
    case Micros(count) => TimestampExact(count, 0, column);
    case Nanos(count) => TimestampExact(count / 1000, count % 1000, column);
    case Text(_) =>
  }

  lemma InAgrees(children: seq<Expr>, literals: seq<OracleLiteral>, stored: Stored, column: ColumnInfo,
                 value: Value, engines: Engines)
    requires Storable(stored, column) && ReadValue(stored, column, engines.conversions) == Some(value)
    requires LiteralsFor(children, column) == Some(literals)
    requires forall i :: 0 <= i < |children| && children[i].Literal? ==> ConstantFits(children[i].constant, column)
    ensures OracleEqualities(stored, column, literals, engines) == DuckEqualities(value, children, value, engines)
  {
    hide OracleCompares, DuckCompares, LiteralFor, Storable, ReadValue, ConstantFits, Comparable, ConstantValue;
    forall i | 0 <= i < |children|
      ensures OracleEqualities(stored, column, literals, engines)[i] == DuckEqualities(value, children, value, engines)[i]
    {
      assert Comparable(Equal, column) by { EqualityComparable(column); }
      ComparisonAgrees(Equal, children[i].constant, stored, column, value, engines);
      assert DuckValue(children[i], value, engines) == ConstantValue(children[i].constant);
    }
  }

  lemma EqualityComparable(column: ColumnInfo)
    ensures Comparable(Equal, column)
  {
  }

  lemma {:induction false} AnyOfConcat(a: seq<Truth>, b: seq<Truth>)
    ensures AnyOf(a + b) == OrOf(AnyOf(a), AnyOf(b))
  {
    if a == [] {
      assert a + b == b;
    } else {
      assert (a + b)[1..] == a[1..] + b;
      AnyOfConcat(a[1..], b);
    }
  }

  /** Splitting an IN list into groups changes nothing. */
  lemma {:induction false} GroupsMean(
    literals: seq<OracleLiteral>, name: nat, columns: seq<ColumnInfo>, row: seq<Stored>, engines: Engines)
    requires literals != [] && name < |columns| && name < |row|
    ensures AnyOf(Meanings(InTests(Groups(literals), name), RowTester(columns, row, engines)))
         == AnyOf(OracleEqualities(row[name], columns[name], literals, engines))
    decreases |literals|
  {
    hide OracleCompares, OracleEqualities, AnyOf;
    var test := RowTester(columns, row, engines);
    var first := if |literals| <= MAX_IN_LIST_VALUES then literals else literals[..MAX_IN_LIST_VALUES];
    var head: Sql<Placed> := Test(Placed(name, InList(first)));
    assert Meaning(head, test) == AnyOf(OracleEqualities(row[name], columns[name], first, engines));
    if |literals| <= MAX_IN_LIST_VALUES {
      assert InTests(Groups(literals), name) == [head];
      assert Meanings([head], test) == [Meaning(head, test)];
      SingleAll(Meaning(head, test));
    } else {
      var rest := literals[MAX_IN_LIST_VALUES..];
      GroupsMean(rest, name, columns, row, engines);
      var tests := InTests(Groups(rest), name);
      assert InTests(Groups(literals), name) == [head] + tests;
      assert Meanings([head] + tests, test) == [Meaning(head, test)] + Meanings(tests, test);
      AnyOfHead(Meaning(head, test), Meanings(tests, test));
      EqualitiesSplit(row[name], columns[name], first, rest, engines);
      assert literals == first + rest;
    }
  }

  lemma EqualitiesSplit(
    stored: Stored, column: ColumnInfo, first: seq<OracleLiteral>, rest: seq<OracleLiteral>, engines: Engines)
    ensures AnyOf(OracleEqualities(stored, column, first + rest, engines))
         == OrOf(AnyOf(OracleEqualities(stored, column, first, engines)),
                 AnyOf(OracleEqualities(stored, column, rest, engines)))
  {
    hide OracleCompares, AnyOf;
    assert OracleEqualities(stored, column, first + rest, engines)
        == OracleEqualities(stored, column, first, engines) + OracleEqualities(stored, column, rest, engines);
    AnyOfConcat(OracleEqualities(stored, column, first, engines), OracleEqualities(stored, column, rest, engines));
  }

  lemma AnyOfHead(head: Truth, rest: seq<Truth>)
    ensures AnyOf([head] + rest) == OrOf(head, AnyOf(rest))
  {
    assert ([head] + rest)[1..] == rest;
  }

  /**
   Every expression that is translated means the same in both engines: for every column, every value it may
   store, and the value DuckDB reads for it, the predicate sent is true, false or unknown exactly as the
   expression is.
   */
  lemma {:induction false} TranslationMeansTheSame(
    e: Expr, name: nat, columns: seq<ColumnInfo>, row: seq<Stored>, value: Value, engines: Engines)
    requires name < |columns| && name < |row| && Storable(row[name], columns[name])
    requires ReadValue(row[name], columns[name], engines.conversions) == Some(value)
    requires WellTyped(e, columns[name]) && Translate(e, columns[name], name).Some?
    ensures Meaning(Translate(e, columns[name], name).value, RowTester(columns, row, engines))
         == DuckTruth(e, value, engines)
    decreases e
  {
    hide Storable, ReadValue, ConstantFits, Comparable, LiteralFor, OracleCompares, DuckCompares, Groups, AnyOf, AllOf;
    var column, stored := columns[name], row[name];
    var sql := Translate(e, column, name).value;
    match e
    case Optional(child) => TranslationMeansTheSame(child.value, name, columns, row, value, engines);
    case Comparison(op, left, right) => ComparisonAgrees(op, right.constant, stored, column, value, engines);
    case NullTest(negated, children) => NullAgrees(stored, column, value, engines);
    case In(children) =>
      var literals := LiteralsFor(children[1..], column).value;
      InAgrees(children[1..], literals, stored, column, value, engines);
      InMeans(literals, name, columns, row, engines);
    case Conjunction(all, children) =>
      var parts := TranslateAll(children, column, name).value;
      PartsMeanTheSame(children, name, columns, row, value, engines);
  }

  lemma InMeans(literals: seq<OracleLiteral>, name: nat, columns: seq<ColumnInfo>, row: seq<Stored>, engines: Engines)
    requires literals != [] && name < |columns| && name < |row|
    ensures var test := RowTester(columns, row, engines);
      var truth := AnyOf(OracleEqualities(row[name], columns[name], literals, engines));
      && Meaning(Test(Placed(name, InList(literals))), test) == truth
      && Meaning(Any(InTests(Groups(literals), name)), test) == truth
  {
    GroupsMean(literals, name, columns, row, engines);
  }

  lemma NullAgrees(stored: Stored, column: ColumnInfo, value: Value, engines: Engines)
    requires ReadValue(stored, column, engines.conversions) == Some(value)
    ensures stored.NullStored? <==> value.NullValue?
  {
  }

  lemma {:induction false} PartsMeanTheSame(
    children: seq<Expr>, name: nat, columns: seq<ColumnInfo>, row: seq<Stored>, value: Value, engines: Engines)
    requires name < |columns| && name < |row| && Storable(row[name], columns[name])
    requires ReadValue(row[name], columns[name], engines.conversions) == Some(value)
    requires forall i :: 0 <= i < |children| ==> WellTyped(children[i], columns[name])
    requires TranslateAll(children, columns[name], name).Some?
    ensures Meanings(TranslateAll(children, columns[name], name).value, RowTester(columns, row, engines))
         == DuckTruths(children, value, engines)
    decreases children
  {
    hide Storable, ReadValue, WellTyped, Translate, Meaning, DuckTruth;
    var test := RowTester(columns, row, engines);
    var parts := TranslateAll(children, columns[name], name).value;
    forall i | 0 <= i < |children|
      ensures Meanings(parts, test)[i] == DuckTruths(children, value, engines)[i]
    {
      TranslationMeansTheSame(children[i], name, columns, row, value, engines);
    }
  }

  /** And it is sent in a form that can be read back: no conjunction is empty. */
  lemma {:induction false} TranslationIsPrintable(e: Expr, column: ColumnInfo, name: nat)
    requires Translate(e, column, name).Some?
    ensures Printable(Translate(e, column, name).value)
    decreases e
  {
    hide LiteralFor, Comparable;
    match e
    case Optional(child) => TranslationIsPrintable(child.value, column, name);
    case Conjunction(all, children) =>
      var parts := TranslateAll(children, column, name).value;
      forall i | 0 <= i < |children| ensures Printable(parts[i]) {
        TranslationIsPrintable(children[i], column, name);
      }
    case In(children) =>
      var literals := LiteralsFor(children[1..], column).value;
      if |literals| > MAX_IN_LIST_VALUES {
        var tests := InTests(Groups(literals), name);
        assert forall i :: 0 <= i < |tests| ==> Printable(tests[i]);
      }
    case _ =>
  }

  // ----- what each refusal is for: sent all the same, the predicate would decide differently

  function AnyEngines(): Engines {
    Engines(Conversions(_ => "", x => x), Renderings(_ => "", x => x), (_, _, _) => Unknown, (_, _, _) => Unknown,
            (_, _, _) => Unknown, (_, _) => NullValue, (_, _) => Unknown)
  }

  /** A NUMBER rounded when it is read: 1.21 is greater than 1.2, the 1.2 DuckDB reads is not. */
  lemma RoundedNumbersDiffer()
    ensures var column := ColumnInfo(TYPE_NUMBER, 1, 0, -127, AsDecimal(10, 1));
      && LiteralFor(Numeric(1.2), column) == None
      && ReadValue(StoredNumber(1.21), column, AnyEngines().conversions) == Some(NumberValue(1.2))
      && OracleCompares(Greater, StoredNumber(1.21), column, NumberLiteral(1.2), AnyEngines()) == True
      && DuckCompares(Greater, NumberValue(1.2), NumberValue(1.2), AnyEngines()) == False
  {
    RoundingLosesOrder(AnyEngines().conversions);
  }

  /** An empty text is NULL in Oracle: nothing differs from it there. */
  lemma EmptyTextDiffers(column: ColumnInfo, text: string, engines: Engines)
    requires text != ""
    ensures LiteralFor(Text(""), column) == None
    ensures OracleCompares(NotEqual, StoredText(text), column, TextLiteral(""), engines) == Unknown
    ensures DuckCompares(NotEqual, TextValue(text), TextValue(""), engines) == True
  {
  }

  /** A CHAR is compared without its padding and read with it. */
  lemma PaddedTextDiffers(engines: Engines)
    ensures var column := ColumnInfo(TYPE_CHAR, 1, 0, 0, AsText);
      && LiteralFor(Text("ab"), column) == None
      && OracleCompares(Equal, StoredText("ab "), column, TextLiteral("ab"), engines) == True
      && DuckCompares(Equal, TextValue("ab "), TextValue("ab"), engines) == False
  {
    assert "ab "[..2] == "ab";
    assert Unpadded("ab") == "ab";
  }

  /** A DATE literal has no fraction: half a second after the stored second would become that second. */
  lemma SubSecondDiffers(engines: Engines)
    ensures var column := ColumnInfo(TYPE_DATE, 1, 0, 0, AsText);
      && LiteralFor(Micros(10_500_000), column) == None
      && OracleCompares(Less, StoredInstant(10 * SECOND), column, InstantLiteral(10 * SECOND), engines) == False
      && DuckCompares(Less, InstantValue(10 * SECOND), ConstantValue(Micros(10_500_000)), engines) == True
  {
  }

  /** The test for an infinite timestamp is made in microseconds. An infinity of TIMESTAMP_NS passes it, and is sent if
      and only if the column is a TIMESTAMP, as the first or last nanosecond that type can hold; a DATE refuses it for
      its fraction. An infinity of TIMESTAMP is never sent. */
  lemma InfiniteNanosecondsAreSent(column: ColumnInfo, infinity: int)
    requires infinity == INFINITE_MICROS || infinity == -INFINITE_MICROS
    ensures LiteralFor(Nanos(infinity), column)
         == if column.oracleType == TYPE_TIMESTAMP then Some(InstantLiteral(infinity)) else None
    ensures LiteralFor(Micros(infinity), column) == None
  {
  }
}
