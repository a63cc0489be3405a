/**
 Replacing an inner join of two scans by one statement that joins two inline views (oracle_optimizer.cpp): each side
 keeps its filter inside its view, a column that is needed twice is selected once, and every row and every column the
 join handed upward is handed up again.
 */
module JoinRewrite {
  import opened Protocol
  import opened Sequences
  import opened ColumnValues
  import opened SqlText
  import opened FilterTranslation
  import T = TopN
  import A = AggregateRewrite

  type Row = T.Row

  // ----- the plan

  datatype Side = Left | Right

  /** A join condition of the plan, between a column of the left table and one of the right. */
  datatype Condition = Condition(left: nat, op: Op, right: nat)

  /** A column the join hands upward. */
  datatype Output = Output(side: Side, column: nat)

  /** A condition or output by its place in the views. */
  datatype PlacedCondition = PlacedCondition(left: nat, op: Op, right: nat)
  datatype PlacedOutput = PlacedOutput(side: Side, position: nat)

  /** The statement: the table columns each view selects, the conditions, and the output columns. */
  datatype Statement = Statement(left: seq<nat>, right: seq<nat>, conditions: seq<PlacedCondition>,
                                 outputs: seq<PlacedOutput>)

  /** Two columns that may be compared: key columns that are held alike. */
  predicate Joinable(a: ColumnInfo, b: ColumnInfo) {
    && A.KeyColumn(a) && A.KeyColumn(b)
    && (a.oracleType == TYPE_NUMBER <==> b.oracleType == TYPE_NUMBER)
    && (a.oracleType == TYPE_NUMBER ==> MapNumber(a) == MapNumber(b))
    && (a.oracleType != TYPE_NUMBER ==> KeepsNanoseconds(a) == KeepsNanoseconds(b))
  }

  /** A column is in a list of selected columns, at that place. */
  predicate Places(selected: seq<nat>, position: nat, column: nat) {
    position < |selected| && selected[position] == column
  }

  /** Finds a column among those selected, or selects it as well. */
  method Select(selected: seq<nat>, column: nat) returns (more: seq<nat>, position: nat)
    ensures selected <= more && Places(more, position, column)
    ensures more == selected || (more == selected + [column] && column !in selected)
    ensures Distinct(selected) ==> Distinct(more)
  {
    for i := 0 to |selected|
      invariant column !in selected[..i]
    {
      if selected[i] == column {
        return selected, i;
      }
      assert selected[..i + 1] == selected[..i] + [selected[i]];
    }
    assert selected[..|selected|] == selected;
    return selected + [column], |selected|;
  }

  /** A column that can be read as itself in the statement: no LOB, JSON, VECTOR or LONG type. A column of XMLTYPE,
      which the source refuses by a flag, is described as a CLOB (oracle_catalog.cpp). */
  predicate PlainColumn(column: ColumnInfo) {
    column.oracleType !in {112, 113, 119, 127, 8, 24}
  }

  predicate ConditionFits(condition: Condition, left: seq<ColumnInfo>, right: seq<ColumnInfo>) {
    && condition.left < |left| && condition.right < |right| && !condition.op.DistinctFrom?
    && Joinable(left[condition.left], right[condition.right])
    && PlainColumn(left[condition.left]) && PlainColumn(right[condition.right])
  }

  predicate OutputFits(output: Output, left: seq<ColumnInfo>, right: seq<ColumnInfo>) {
    var columns := if output.side.Left? then left else right;
    output.column < |columns| && PlainColumn(columns[output.column])
  }

  /** What may be sent. */
  predicate JoinFits(conditions: seq<Condition>, outputs: seq<Output>, left: seq<ColumnInfo>, right: seq<ColumnInfo>) {
    && conditions != [] && outputs != []
    && (forall i :: 0 <= i < |conditions| ==> ConditionFits(conditions[i], left, right))
    && (forall i :: 0 <= i < |outputs| ==> OutputFits(outputs[i], left, right))
  }

  /** The statement has each condition and each output of the join, in order, and places each in its view; no view
      selects a column twice. */
  ghost predicate Writes(statement: Statement, conditions: seq<Condition>, outputs: seq<Output>) {
    && |statement.conditions| == |conditions| && |statement.outputs| == |outputs|
    && (forall i :: 0 <= i < |conditions| ==> PlacesCondition(statement, statement.conditions[i], conditions[i]))
    && (forall i :: 0 <= i < |outputs| ==> PlacesOutput(statement, statement.outputs[i], outputs[i]))
    && Distinct(statement.left) && Distinct(statement.right)
  }

  ghost predicate PlacesCondition(statement: Statement, placed: PlacedCondition, condition: Condition) {
    && placed.op == condition.op
    && Places(statement.left, placed.left, condition.left) && Places(statement.right, placed.right, condition.right)
  }

  ghost predicate PlacesOutput(statement: Statement, placed: PlacedOutput, output: Output) {
    && placed.side == output.side
    && Places(if output.side.Left? then statement.left else statement.right, placed.position, output.column)
  }

  /** One scan under a join: the database it is attached to and the secret it connects with, its columns, and whether
      it does anything a view with a WHERE clause does not say. */
  datatype Source = Source(catalog: string, secret: string, columns: seq<ColumnInfo>, sampled: bool, nestedColumns: bool,
                           localFilters: bool)
  {
    predicate Prepared() {
      !sampled && !nestedColumns && !localFilters
    }
  }

  /** Both tables are in one attached database, reached in one way. */
  predicate OneDatabase(left: Source, right: Source) {
    left.catalog != "" && left.catalog == right.catalog && left.secret == right.secret
  }

  lemma NothingWritten()
    ensures Writes(Statement([], [], [], []), [], [])
  {
  }

  /** A statement whose views grow still places what it placed. */
  lemma ConditionAdded(s: Statement, conditions: seq<Condition>, condition: Condition, left: seq<nat>, right: seq<nat>,
                       placed: PlacedCondition)
    requires Writes(s, conditions, []) && s.left <= left && s.right <= right && Distinct(left) && Distinct(right)
    requires PlacesCondition(s.(left := left, right := right), placed, condition)
    ensures Writes(Statement(left, right, s.conditions + [placed], []), conditions + [condition], [])
  {
    hide Distinct;
  }

  lemma OutputAdded(s: Statement, conditions: seq<Condition>, outputs: seq<Output>, output: Output, left: seq<nat>,
                    right: seq<nat>, placed: PlacedOutput)
    requires Writes(s, conditions, outputs) && s.left <= left && s.right <= right && Distinct(left) && Distinct(right)
    requires PlacesOutput(s.(left := left, right := right), placed, output)
    ensures Writes(Statement(left, right, s.conditions, s.outputs + [placed]), conditions, outputs + [output])
  {
    hide Distinct;
  }

  /** The refusals, and the loops over the conditions and over what the join hands upward. */
  method PushJoin(plainInner: bool, conditions: seq<Condition>, outputs: seq<Output>, leftSide: Source, rightSide: Source)
    returns (statement: Option<Statement>)
    ensures statement.Some?
      <==> && plainInner && leftSide.Prepared() && rightSide.Prepared() && OneDatabase(leftSide, rightSide)
           && JoinFits(conditions, outputs, leftSide.columns, rightSide.columns)
    ensures statement.Some? ==> Writes(statement.value, conditions, outputs)
  {
    hide ConditionFits, OutputFits, Distinct;
    if !plainInner || conditions == [] {
      return None;
    }
    if !leftSide.Prepared() || !rightSide.Prepared() || !OneDatabase(leftSide, rightSide) {
      return None;
    }
    var left, right := leftSide.columns, rightSide.columns;
    var s := Statement([], [], [], []);
    NothingWritten();
    for i := 0 to |conditions|
      invariant forall k :: 0 <= k < i ==> ConditionFits(conditions[k], left, right)
      invariant Writes(s, conditions[..i], [])
    {
      if !ConditionFits(conditions[i], left, right) {
        return None;
      }
      var l, lp := Select(s.left, conditions[i].left);
      var r, rp := Select(s.right, conditions[i].right);
      var placed := PlacedCondition(lp, conditions[i].op, rp);
      assert PlacesCondition(s.(left := l, right := r), placed, conditions[i]);
      ConditionAdded(s, conditions[..i], conditions[i], l, r, placed);
      assert conditions[..i + 1] == conditions[..i] + [conditions[i]];
      s := Statement(l, r, s.conditions + [placed], []);
    }
    assert conditions[..|conditions|] == conditions;
    for i := 0 to |outputs|
      invariant forall k :: 0 <= k < i ==> OutputFits(outputs[k], left, right)
      invariant Writes(s, conditions, outputs[..i])
    {
      if !OutputFits(outputs[i], left, right) {
        return None;
      }
      var column := outputs[i].column;
      var l, r, position := s.left, s.right, 0;
      if outputs[i].side.Left? {
        l, position := Select(s.left, column);
      } else {
        r, position := Select(s.right, column);
      }
      var placed := PlacedOutput(outputs[i].side, position);
      assert PlacesOutput(s.(left := l, right := r), placed, outputs[i]);
      OutputAdded(s, conditions, outputs[..i], outputs[i], l, r, placed);
      assert outputs[..i + 1] == outputs[..i] + [outputs[i]];
      s := Statement(l, r, s.conditions, s.outputs + [placed]);
    }
    assert outputs[..|outputs|] == outputs;
    return if outputs == [] then None else Some(s);
  }

  // ----- what both engines make of it

  /** A comparison of two columns: unknown where one is NULL. */
  function Compared(op: Op, a: T.SortValue, b: T.SortValue): Truth {
    if a.None? || b.None? then Unknown else CompareNumbers(op, a.value, b.value)
  }

  /** The rows of an inner join, one for each pair the condition is true of. */
  function JoinedRow<V>(a: Row, bs: seq<Row>, on: (Row, Row) -> bool, output: (Row, Row) -> V): seq<V> {
    if bs == [] then []
    else (if on(a, bs[0]) then [output(a, bs[0])] else []) + JoinedRow(a, bs[1..], on, output)
  }

  function JoinedRows<V>(as_: seq<Row>, bs: seq<Row>, on: (Row, Row) -> bool, output: (Row, Row) -> V): seq<V> {
    if as_ == [] then [] else JoinedRow(as_[0], bs, on, output) + JoinedRows(as_[1..], bs, on, output)
  }

  function ReadAt(row: Row, column: nat): Value {
    if column < |row.read| then row.read[column] else NullValue
  }

  /** DuckDB: every condition is true of the values read. */
  function DuckOn(conditions: seq<Condition>): (Row, Row) -> bool {
    (a: Row, b: Row) => forall i :: 0 <= i < |conditions| ==>
      Compared(conditions[i].op, T.ReadSortValue(ReadAt(a, conditions[i].left)),
               T.ReadSortValue(ReadAt(b, conditions[i].right))) == True
  }

  function DuckValues(outputs: seq<Output>, a: Row, b: Row): (values: seq<Option<Value>>)
    ensures |values| == |outputs|
    ensures forall i :: 0 <= i < |outputs| ==>
      values[i] == Some(ReadAt(if outputs[i].side.Left? then a else b, outputs[i].column))
  {
    if outputs == [] then []
    else [Some(ReadAt(if outputs[0].side.Left? then a else b, outputs[0].column))] + DuckValues(outputs[1..], a, b)
  }

  /** A row of an inline view: the columns it selects. */
  function ViewRow(selected: seq<nat>, row: Row): (values: seq<Stored>)
    ensures |values| == |selected|
    ensures forall i :: 0 <= i < |selected| ==>
      values[i] == if selected[i] < |row.stored| then row.stored[selected[i]] else NullStored
  {
    if selected == [] then []
    else [if selected[0] < |row.stored| then row.stored[selected[0]] else NullStored] + ViewRow(selected[1..], row)
  }

  function At(values: seq<Stored>, position: nat): Stored {
    if position < |values| then values[position] else NullStored
  }

  /** Oracle: every ON condition is true of the values in the views. */
  function OracleOn(statement: Statement): (Row, Row) -> bool {
    (a: Row, b: Row) => forall i :: 0 <= i < |statement.conditions| ==>
      var condition := statement.conditions[i];
      Compared(condition.op, T.StoredSortValue(At(ViewRow(statement.left, a), condition.left)),
               T.StoredSortValue(At(ViewRow(statement.right, b), condition.right))) == True
  }

  /** What is read from one output column, by the column of the table it declares. */
  function OutputValue(output: PlacedOutput, statement: Statement, a: Row, b: Row, left: seq<ColumnInfo>,
                       right: seq<ColumnInfo>, conversions: Conversions): Option<Value>
  {
    var selected, row, columns := if output.side.Left? then statement.left else statement.right,
                                  if output.side.Left? then a else b, if output.side.Left? then left else right;
    if output.position >= |selected| || selected[output.position] >= |columns| then None
    else ReadValue(At(ViewRow(selected, row), output.position), columns[selected[output.position]], conversions)
  }

  function OracleValues(outputs: seq<PlacedOutput>, statement: Statement, a: Row, b: Row, left: seq<ColumnInfo>,
                        right: seq<ColumnInfo>, conversions: Conversions): (values: seq<Option<Value>>)
    ensures |values| == |outputs|
    ensures forall i :: 0 <= i < |outputs| ==>
      values[i] == OutputValue(outputs[i], statement, a, b, left, right, conversions)
  {
    if outputs == [] then []
    else [OutputValue(outputs[0], statement, a, b, left, right, conversions)]
         + OracleValues(outputs[1..], statement, a, b, left, right, conversions)
  }

  /** One side's table: its rows as stored and as read. */
  ghost predicate TableRead(rows: seq<Row>, columns: seq<ColumnInfo>, conversions: Conversions) {
    forall row :: row in rows ==> T.ReadsAs(row, columns, conversions)
  }

  lemma ConditionAgrees(a: Row, b: Row, condition: Condition, placed: PlacedCondition, statement: Statement,
                        left: seq<ColumnInfo>, right: seq<ColumnInfo>, conversions: Conversions)
    requires T.ReadsAs(a, left, conversions) && T.ReadsAs(b, right, conversions)
    requires ConditionFits(condition, left, right) && PlacesCondition(statement, placed, condition)
    ensures T.StoredSortValue(At(ViewRow(statement.left, a), placed.left)) == T.ReadSortValue(ReadAt(a, condition.left))
    ensures T.StoredSortValue(At(ViewRow(statement.right, b), placed.right)) == T.ReadSortValue(ReadAt(b, condition.right))
  {
    KeyIsOrderable(left[condition.left]);
    KeyIsOrderable(right[condition.right]);
    hide Storable, ReadValue, T.Orderable, A.KeyColumn, MapNumber;
    T.OrderableReadsTheSame(a.stored[condition.left], left[condition.left], a.read[condition.left], conversions);
    T.OrderableReadsTheSame(b.stored[condition.right], right[condition.right], b.read[condition.right], conversions);
  }

  lemma KeyIsOrderable(column: ColumnInfo)
    requires A.KeyColumn(column)
    ensures T.Orderable(column)
  {
  }

  /** A pair of rows joins in Oracle just when it joins in DuckDB. */
  lemma OnAgrees(a: Row, b: Row, conditions: seq<Condition>, outputs: seq<Output>, statement: Statement,
                 left: seq<ColumnInfo>, right: seq<ColumnInfo>, conversions: Conversions)
    requires T.ReadsAs(a, left, conversions) && T.ReadsAs(b, right, conversions)
    requires JoinFits(conditions, outputs, left, right) && Writes(statement, conditions, outputs)
    ensures OracleOn(statement)(a, b) == DuckOn(conditions)(a, b)
  {
    hide T.ReadsAs, ConditionFits, OutputFits, PlacesOutput, Compared, Distinct;
    forall i | 0 <= i < |conditions|
      ensures T.StoredSortValue(At(ViewRow(statement.left, a), statement.conditions[i].left))
           == T.ReadSortValue(ReadAt(a, conditions[i].left))
      ensures T.StoredSortValue(At(ViewRow(statement.right, b), statement.conditions[i].right))
           == T.ReadSortValue(ReadAt(b, conditions[i].right))
      ensures statement.conditions[i].op == conditions[i].op
    {
      ConditionAgrees(a, b, conditions[i], statement.conditions[i], statement, left, right, conversions);
    }
  }

  /** And hands up the same values. */
  lemma ValuesAgree(a: Row, b: Row, conditions: seq<Condition>, outputs: seq<Output>, statement: Statement,
                    left: seq<ColumnInfo>, right: seq<ColumnInfo>, conversions: Conversions)
    requires T.ReadsAs(a, left, conversions) && T.ReadsAs(b, right, conversions)
    requires JoinFits(conditions, outputs, left, right) && Writes(statement, conditions, outputs)
    ensures OracleValues(statement.outputs, statement, a, b, left, right, conversions) == DuckValues(outputs, a, b)
  {
    hide T.ReadsAs, ConditionFits, OutputFits, PlacesCondition, PlacesOutput, Distinct, OutputValue, ReadAt;
    forall i | 0 <= i < |outputs|
      ensures OracleValues(statement.outputs, statement, a, b, left, right, conversions)[i] == DuckValues(outputs, a, b)[i]
    {
      OutputAgrees(a, b, outputs[i], statement.outputs[i], statement, left, right, conversions);
    }
  }

  lemma OutputAgrees(a: Row, b: Row, output: Output, placed: PlacedOutput, statement: Statement,
                     left: seq<ColumnInfo>, right: seq<ColumnInfo>, conversions: Conversions)
    requires T.ReadsAs(a, left, conversions) && T.ReadsAs(b, right, conversions)
    requires OutputFits(output, left, right) && PlacesOutput(statement, placed, output)
    ensures OutputValue(placed, statement, a, b, left, right, conversions)
         == Some(ReadAt(if output.side.Left? then a else b, output.column))
  {
    hide Storable, ReadValue, PlainColumn;
  }

  function OracleOutput(statement: Statement, left: seq<ColumnInfo>, right: seq<ColumnInfo>, conversions: Conversions):
    (Row, Row) -> seq<Option<Value>>
  {
    (a: Row, b: Row) => OracleValues(statement.outputs, statement, a, b, left, right, conversions)
  }

  function DuckOutput(outputs: seq<Output>): (Row, Row) -> seq<Option<Value>> {
    (a: Row, b: Row) => DuckValues(outputs, a, b)
  }

  ghost predicate SameOn<V(!new)>(a: Row, b: Row, on: (Row, Row) -> bool, output: (Row, Row) -> V, on2: (Row, Row) -> bool,
                            output2: (Row, Row) -> V) {
    on(a, b) == on2(a, b) && output(a, b) == output2(a, b)
  }

  lemma {:induction false} SameJoinedRow<V(!new)>(
    a: Row, bs: seq<Row>, on: (Row, Row) -> bool, output: (Row, Row) -> V, on2: (Row, Row) -> bool, output2: (Row, Row) -> V)
    requires forall b :: b in bs ==> SameOn(a, b, on, output, on2, output2)
    ensures JoinedRow(a, bs, on, output) == JoinedRow(a, bs, on2, output2)
  {
    if bs != [] {
      assert SameOn(a, bs[0], on, output, on2, output2);
      SameJoinedRow(a, bs[1..], on, output, on2, output2);
    }
  }

  lemma {:induction false} SameJoinedRows<V(!new)>(
    as_: seq<Row>, bs: seq<Row>, on: (Row, Row) -> bool, output: (Row, Row) -> V, on2: (Row, Row) -> bool,
    output2: (Row, Row) -> V)
    requires forall a, b :: a in as_ && b in bs ==> SameOn(a, b, on, output, on2, output2)
    ensures JoinedRows(as_, bs, on, output) == JoinedRows(as_, bs, on2, output2)
  {
    hide SameOn;
    if as_ != [] {
      SameJoinedRow(as_[0], bs, on, output, on2, output2);
      SameJoinedRows(as_[1..], bs, on, output, on2, output2);
    }
  }

  lemma {:induction false} SamePassing(rows: seq<Row>, filter: Row -> bool, pushed: Row -> bool)
    requires forall row :: row in rows ==> filter(row) == pushed(row)
    ensures Passing(rows, filter) == Passing(rows, pushed)
    ensures forall row :: row in Passing(rows, filter) ==> row in rows
  {
    if rows != [] {
      SamePassing(rows[1..], filter, pushed);
    }
  }

  /**
   The rewrite keeps the bag of rows and every column. For any two tables and any filters that were pushed exactly,
   the statement, its views filtered and its output read by the declared columns, returns the rows the inner join of
   the filtered scans returned; position by position they hold the columns the join handed upward, so each old
   binding, moved to its position, finds its column.
   */
  lemma PushedJoinReturnsTheSame(
    leftRows: seq<Row>, rightRows: seq<Row>, leftFilter: Row -> bool, rightFilter: Row -> bool,
    leftPushed: Row -> bool, rightPushed: Row -> bool, conditions: seq<Condition>, outputs: seq<Output>,
    statement: Statement, left: seq<ColumnInfo>, right: seq<ColumnInfo>, conversions: Conversions)
    requires JoinFits(conditions, outputs, left, right) && Writes(statement, conditions, outputs)
    requires TableRead(leftRows, left, conversions) && TableRead(rightRows, right, conversions)
    requires forall row :: row in leftRows ==> leftFilter(row) == leftPushed(row)
    requires forall row :: row in rightRows ==> rightFilter(row) == rightPushed(row)
    ensures multiset(JoinedRows(Passing(leftRows, leftPushed), Passing(rightRows, rightPushed), OracleOn(statement),
                                OracleOutput(statement, left, right, conversions)))
         == multiset(JoinedRows(Passing(leftRows, leftFilter), Passing(rightRows, rightFilter), DuckOn(conditions),
                                DuckOutput(outputs)))
  {
    hide JoinFits, Writes, OracleOn, DuckOn, OracleValues, DuckValues, Passing, JoinedRows;
    SamePassing(leftRows, leftFilter, leftPushed);
    SamePassing(rightRows, rightFilter, rightPushed);
    var as_, bs := Passing(leftRows, leftFilter), Passing(rightRows, rightFilter);
    forall a, b | a in as_ && b in bs
      ensures SameOn(a, b, OracleOn(statement), OracleOutput(statement, left, right, conversions), DuckOn(conditions),
                     DuckOutput(outputs))
    {
      OnAgrees(a, b, conditions, outputs, statement, left, right, conversions);
      ValuesAgree(a, b, conditions, outputs, statement, left, right, conversions);
    }
    SameJoinedRows(as_, bs, OracleOn(statement), OracleOutput(statement, left, right, conversions), DuckOn(conditions),
                   DuckOutput(outputs));
  }
}
