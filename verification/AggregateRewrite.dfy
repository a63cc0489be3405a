/**
 Replacing an AGGREGATE over a scan by a scan of a GROUP BY statement (oracle_optimizer.cpp): the groups and the
 aggregates Oracle computes over the values it stores are, once read, those DuckDB would have computed over the values
 it reads, NULL groups, NULL values and empty input included, and every column binding of the plan finds its column.
 */
module AggregateRewrite {
  import opened Protocol
  import opened ColumnValues
  import opened TopN

  // ----- columns that are compared by value in both engines

  /** The types of DuckDB a plan is checked against; the others, none of which is a key type, are one here. */
  datatype Type = BigintType | HugeintType | DecimalType(width: nat, scale: int) | TimestampType | TimestampNsType
                | OtherType

  /** The type a column is read as. */
  function MappedType(column: ColumnInfo): Type {
    if column.oracleType == TYPE_NUMBER then
      match MapNumber(column)
      case ToBigint => BigintType
      case ToDecimal(width, scale) => DecimalType(width, scale)
      case _ => OtherType
    else if column.oracleType == TYPE_DATE then TimestampType
    else if column.oracleType == TYPE_TIMESTAMP then if KeepsNanoseconds(column) then TimestampNsType else TimestampType
    else OtherType
  }

  /** The types a group key, a join key, MIN and MAX may have: BIGINT, DECIMAL, TIMESTAMP and TIMESTAMP_NS. */
  predicate KeyType(column: ColumnInfo) {
    || (column.oracleType == TYPE_NUMBER && (MapNumber(column).ToBigint? || MapNumber(column).ToDecimal?))
    || column.oracleType in {TYPE_DATE, TYPE_TIMESTAMP}
  }

  predicate KeyColumn(column: ColumnInfo) {
    KeyType(column) && !RoundsOnRead(column)
  }

  /** A stored number or instant as a value, no digit lost. */
  function Held(stored: Stored): Value {
    match stored
    case StoredNumber(number) => NumberValue(number)
    case StoredInstant(nanoseconds) => InstantValue(nanoseconds)
    case _ => NullValue
  }

  /** A key column reads as what it holds. */
  lemma KeyReadsAsHeld(stored: Stored, column: ColumnInfo, value: Value, conversions: Conversions)
    requires KeyColumn(column) && Storable(stored, column) && ReadValue(stored, column, conversions) == Some(value)
    ensures value == Held(stored)
  {
    hide MapNumber, ReadNumber, Fits;
    if stored.StoredNumber? {
      ReadsExactly(stored, column, conversions);
    }
  }

  /** Different values stored in a key column read as different values, and equal ones as equal. */
  lemma KeysMatch(a: Row, b: Row, column: nat, columns: seq<ColumnInfo>, conversions: Conversions)
    requires ReadsAs(a, columns, conversions) && ReadsAs(b, columns, conversions)
    requires column < |columns| && KeyColumn(columns[column])
    ensures a.stored[column] == b.stored[column] <==> a.read[column] == b.read[column]
  {
    hide KeyColumn, ReadValue;
    KeyReadsAsHeld(a.stored[column], columns[column], a.read[column], conversions);
    KeyReadsAsHeld(b.stored[column], columns[column], b.read[column], conversions);
    StorableKey(a.stored[column], columns[column]);
    StorableKey(b.stored[column], columns[column]);
  }

  lemma StorableKey(stored: Stored, column: ColumnInfo)
    requires KeyColumn(column) && Storable(stored, column)
    ensures stored.NullStored? || stored.StoredNumber? || stored.StoredInstant?
  {
  }

  // ----- rounding keeps order

  lemma PowerIsPositive(a: real, b: real, p: int)
    requires a <= b && p >= 1
    ensures a * p as real <= b * p as real
  {
    assert (b - a) * p as real >= 0.0;
  }

  lemma FloorKeepsOrder(a: real, b: real)
    requires a <= b
    ensures a.Floor <= b.Floor
  {
  }

  lemma NearestKeepsOrder(a: real, b: real, scale: nat)
    requires a <= b
    ensures Nearest(a, scale) <= Nearest(b, scale)
  {
    var x, y := a * Power(scale) as real, b * Power(scale) as real;
    PowerIsPositive(a, b, Power(scale));
    hide Power;
    if x >= 0.0 {
      FloorKeepsOrder(x + 0.5, y + 0.5);
    } else if y < 0.0 {
      FloorKeepsOrder(-y + 0.5, -x + 0.5);
    } else {
      assert (-x + 0.5).Floor >= 0 && (y + 0.5).Floor >= 0;
    }
  }

  lemma ScaledKeepsOrder(a: int, b: int, scale: nat)
    requires a <= b
    ensures Scaled(a, scale) <= Scaled(b, scale)
  {
    DivideKeepsOrder(a as real, b as real, Power(scale) as real);
  }

  lemma DivideKeepsOrder(a: real, b: real, p: real)
    requires a <= b && p > 0.0
    ensures a / p <= b / p
  {
    assert b / p - a / p == (b - a) / p;
  }

  // ----- MIN and MAX

  /** The smaller, or with `greatest` the greater, of two values; NULL is passed over. */
  function Better(a: Stored, b: Stored, greatest: bool): Stored {
    if a.NullStored? then b
    else if b.NullStored? then a
    else if a.StoredNumber? && b.StoredNumber? then
      if (a.number <= b.number) != greatest then a else b
    else if a.StoredInstant? && b.StoredInstant? then
      if (a.nanoseconds <= b.nanoseconds) != greatest then a else b
    else a
  }

  function BetterRead(a: Value, b: Value, greatest: bool): Value {
    if a.NullValue? then b
    else if b.NullValue? then a
    else if a.NumberValue? && b.NumberValue? then
      if (a.number <= b.number) != greatest then a else b
    else if a.InstantValue? && b.InstantValue? then
      if (a.nanoseconds <= b.nanoseconds) != greatest then a else b
    else a
  }

  /** Oracle: MIN or MAX of a column over a group, NULL when it has no value. */
  function Best(rows: seq<Row>, column: nat, greatest: bool): Stored {
    if rows == [] then NullStored
    else
      Better(if column < |rows[0].stored| then rows[0].stored[column] else NullStored,
             Best(rows[1..], column, greatest), greatest)
  }

  /** DuckDB: the same over the values read. */
  function BestRead(rows: seq<Row>, column: nat, greatest: bool): Value {
    if rows == [] then NullValue
    else
      BetterRead(if column < |rows[0].read| then rows[0].read[column] else NullValue,
                 BestRead(rows[1..], column, greatest), greatest)
  }

  /** The kind of value a key column stores. */
  predicate KindFits(stored: Stored, column: ColumnInfo) {
    stored.NullStored? || (if column.oracleType == TYPE_NUMBER then stored.StoredNumber? else stored.StoredInstant?)
  }

  lemma KeyTypeKind(stored: Stored, column: ColumnInfo)
    requires KeyType(column) && Storable(stored, column)
    ensures KindFits(stored, column)
  {
  }

  /** A rounded number keeps its place: the value read from the better of two is the better of the values read. */
  lemma BetterReadsAsBetter(a: Stored, b: Stored, column: ColumnInfo, av: Value, bv: Value, greatest: bool,
                            conversions: Conversions)
    requires KeyType(column) && KindFits(a, column) && KindFits(b, column)
    requires a.StoredNumber? && b.StoredNumber? ==> ReadNumbersInOrder(a, b, column, conversions)
    requires ReadValue(a, column, conversions) == Some(av) && ReadValue(b, column, conversions) == Some(bv)
    ensures ReadValue(Better(a, b, greatest), column, conversions) == Some(BetterRead(av, bv, greatest))
  {
    hide MapNumber, ReadNumber;
  }

  /** The numbers read stand in the order of the numbers stored. */
  ghost predicate ReadNumbersInOrder(a: Stored, b: Stored, column: ColumnInfo, conversions: Conversions)
    requires a.StoredNumber? && b.StoredNumber?
  {
    var av, bv := ReadValue(a, column, conversions), ReadValue(b, column, conversions);
    av.Some? && bv.Some? ==>
      && av.value.NumberValue? && bv.value.NumberValue?
      && (a.number <= b.number ==> av.value.number <= bv.value.number)
      && (b.number <= a.number ==> bv.value.number <= av.value.number)
  }

  lemma NumbersStayInOrder(a: Stored, b: Stored, column: ColumnInfo, conversions: Conversions)
    requires KeyType(column) && column.oracleType == TYPE_NUMBER && a.StoredNumber? && b.StoredNumber?
    ensures ReadNumbersInOrder(a, b, column, conversions)
  {
    var mapping := MapNumber(column);
    hide MapNumber, Nearest, Scaled, Power;
    if mapping.ToDecimal? {
      DecimalsStayInOrder(a.number, b.number, mapping.width, mapping.scale, conversions);
      DecimalsStayInOrder(b.number, a.number, mapping.width, mapping.scale, conversions);
    } else {
      BigintsStayInOrder(a.number, b.number, conversions);
      BigintsStayInOrder(b.number, a.number, conversions);
    }
  }

  lemma DecimalsStayInOrder(a: real, b: real, width: nat, scale: nat, conversions: Conversions)
    ensures var av, bv := ReadNumber(a, ToDecimal(width, scale), conversions),
                          ReadNumber(b, ToDecimal(width, scale), conversions);
      a <= b && av.Some? && bv.Some? ==>
        av.value.NumberValue? && bv.value.NumberValue? && av.value.number <= bv.value.number
  {
    hide Nearest, Scaled, Power;
    if a <= b {
      NearestKeepsOrder(a, b, scale);
      ScaledKeepsOrder(Nearest(a, scale), Nearest(b, scale), scale);
    }
  }

  lemma BigintsStayInOrder(a: real, b: real, conversions: Conversions)
    ensures var av, bv := ReadNumber(a, ToBigint, conversions), ReadNumber(b, ToBigint, conversions);
      a <= b && av.Some? && bv.Some? ==>
        av.value.NumberValue? && bv.value.NumberValue? && av.value.number <= bv.value.number
  {
  }

  ghost predicate AllRead(rows: seq<Row>, columns: seq<ColumnInfo>, conversions: Conversions) {
    forall i :: 0 <= i < |rows| ==> ReadsAs(rows[i], columns, conversions)
  }

  /** MIN and MAX of a column, rounded when it is read or not, read as the MIN and MAX of the values read. */
  lemma {:induction false} BestReadsAsBest(
    rows: seq<Row>, column: nat, greatest: bool, columns: seq<ColumnInfo>, conversions: Conversions)
    requires AllRead(rows, columns, conversions) && column < |columns| && KeyType(columns[column])
    ensures KindFits(Best(rows, column, greatest), columns[column])
    ensures ReadValue(Best(rows, column, greatest), columns[column], conversions)
         == Some(BestRead(rows, column, greatest))
  {
    hide KeyType, Storable, ReadNumber, MapNumber, ReadNumbersInOrder;
    if rows != [] {
      var info := columns[column];
      var a, b := rows[0].stored[column], Best(rows[1..], column, greatest);
      BestReadsAsBest(rows[1..], column, greatest, columns, conversions);
      KeyTypeKind(a, info);
      if a.StoredNumber? && b.StoredNumber? {
        NumbersStayInOrder(a, b, info, conversions);
      }
      BetterReadsAsBetter(a, b, info, rows[0].read[column], BestRead(rows[1..], column, greatest), greatest, conversions);
    }
  }

  // ----- the other aggregates

  function CountRead(rows: seq<Row>, column: nat): nat {
    if rows == [] then 0
    else CountRead(rows[1..], column) + (if column < |rows[0].read| && !rows[0].read[column].NullValue? then 1 else 0)
  }

  function CountStored(rows: seq<Row>, column: nat): nat {
    if rows == [] then 0
    else CountStored(rows[1..], column) + (if column < |rows[0].stored| && !rows[0].stored[column].NullStored? then 1 else 0)
  }

  lemma {:induction false} CountsAgree(rows: seq<Row>, column: nat, columns: seq<ColumnInfo>, conversions: Conversions)
    requires AllRead(rows, columns, conversions) && column < |columns|
    ensures CountRead(rows, column) == CountStored(rows, column)
  {
    hide Storable;
    if rows != [] {
      CountsAgree(rows[1..], column, columns, conversions);
    }
  }

  /** SUM over the values stored; nothing when there is none. */
  function SumStored(rows: seq<Row>, column: nat): Option<real> {
    if rows == [] then None
    else Plus(if column < |rows[0].stored| then StoredSortValue(rows[0].stored[column]) else None,
              SumStored(rows[1..], column))
  }

  function SumRead(rows: seq<Row>, column: nat): Option<real> {
    if rows == [] then None
    else Plus(if column < |rows[0].read| then ReadSortValue(rows[0].read[column]) else None,
              SumRead(rows[1..], column))
  }

  function Plus(a: Option<real>, b: Option<real>): Option<real> {
    if a.None? then b else if b.None? then a else Some(a.value + b.value)
  }

  /** A column whose sum is sent: a NUMBER with a declared precision whose scale is within it. */
  predicate SummableColumn(column: ColumnInfo) {
    && column.oracleType == TYPE_NUMBER && column.precision >= 1 && 0 <= column.scale <= column.precision <= 38
    && (MapNumber(column).ToBigint? || MapNumber(column).ToDecimal?)
  }

  lemma {:induction false} SumsAgree(rows: seq<Row>, column: nat, columns: seq<ColumnInfo>, conversions: Conversions)
    requires AllRead(rows, columns, conversions) && column < |columns| && SummableColumn(columns[column])
    ensures SumRead(rows, column) == SumStored(rows, column)
  {
    if rows != [] {
      SumsAgree(rows[1..], column, columns, conversions);
      SummableIsOrderable(columns[column]);
      hide SummableColumn, Orderable, Storable, ReadValue;
      OrderableReadsTheSame(rows[0].stored[column], columns[column], rows[0].read[column], conversions);
    }
  }

  lemma SummableIsOrderable(column: ColumnInfo)
    requires SummableColumn(column)
    ensures Orderable(column)
  {
  }

  // ----- the plan

  /** An aggregate over a column below it. */
  datatype Kind = CountStar | Count(argument: Binding) | Sum(argument: Binding) | Least(argument: Binding)
                | Greatest(argument: Binding) | OtherKind

  /** A key of a plan and the type it has there. */
  datatype Group = Group(expression: Projected, wanted: Type)

  /** An aggregate call of a plan: over distinct values or all, with a FILTER of its own or none, in an order or none,
      and the type of its result. */
  datatype Call = Call(kind: Kind, distinct: bool, filtered: bool, ordered: bool, wanted: Type) {
    predicate Plain() {
      !distinct && !filtered && !ordered
    }
  }

  /** An AGGREGATE: its keys and calls, whether it calls GROUPING(), and how many keys each grouping set has. */
  datatype Aggregate = Aggregate(groups: seq<Group>, calls: seq<Call>, groupingCalls: bool, groupingSets: seq<nat>) {
    /** There is one grouping, by all the keys. */
    predicate Single() {
      !groupingCalls && |groupingSets| <= 1 && (|groupingSets| == 1 ==> groupingSets[0] == |groups|)
    }
  }

  /** What a scan does besides reading its columns: takes a sample, waits for filters a join will add, reads inside
      nested columns, or has filters that Oracle was not sent. */
  datatype Scan = Scan(sampled: bool, dynamicFilters: bool, nestedColumns: bool, localFilters: bool) {
    predicate Reads() {
      !sampled && !dynamicFilters && !nestedColumns && !localFilters
    }
  }

  /** An output column of the statement that is sent. */
  datatype Item = GroupItem(column: nat) | CountAllItem | CountItem(column: nat) | SumItem(column: nat)
                | BestItem(column: nat, greatest: bool)

  /** The type of a sum: HUGEINT of integers, and of decimals one with 38 digits and their scale. */
  function SumType(column: ColumnInfo): Type {
    if MapNumber(column).ToBigint? then HugeintType else DecimalType(38, column.scale)
  }

  function GroupItemFor(group: Group, projections: seq<Projection>, get: Get, columns: seq<ColumnInfo>): Option<Item> {
    if group.expression.Computed? then None
    else
      var column := Resolve(projections, get, group.expression.binding);
      if column.None? || column.value >= |columns| || !KeyColumn(columns[column.value]) then None
      else if MappedType(columns[column.value]) != group.wanted then None
      else Some(GroupItem(column.value))
  }

  function CallItemFor(call: Call, projections: seq<Projection>, get: Get, columns: seq<ColumnInfo>): Option<Item> {
    if !call.Plain() then None
    else if call.kind.CountStar? then Some(CountAllItem)
    else if call.kind.OtherKind? then None
    else
      var column := Resolve(projections, get, call.kind.argument);
      if column.None? || column.value >= |columns| then None
      else
        var info := columns[column.value];
        var best := KeyType(info) && call.wanted == MappedType(info);
        match call.kind
        case Count(_) => if call.wanted.BigintType? then Some(CountItem(column.value)) else None
        case Least(_) => if best then Some(BestItem(column.value, false)) else None
        case Greatest(_) => if best then Some(BestItem(column.value, true)) else None
        case _ => if SummableColumn(info) && call.wanted == SumType(info) then Some(SumItem(column.value)) else None
  }

  function GroupItems(groups: seq<Group>, projections: seq<Projection>, get: Get, columns: seq<ColumnInfo>): (r: Option<seq<Item>>)
    ensures r.Some? ==> |r.value| == |groups| && forall i :: 0 <= i < |groups| ==>
      GroupItemFor(groups[i], projections, get, columns) == Some(r.value[i])
  {
    if groups == [] then Some([])
    else
      var first := GroupItemFor(groups[0], projections, get, columns);
      var rest := GroupItems(groups[1..], projections, get, columns);
      if first.None? || rest.None? then None else Some([first.value] + rest.value)
  }

  function CallItems(calls: seq<Call>, projections: seq<Projection>, get: Get, columns: seq<ColumnInfo>): (r: Option<seq<Item>>)
    ensures r.Some? ==> |r.value| == |calls| && forall i :: 0 <= i < |calls| ==>
      CallItemFor(calls[i], projections, get, columns) == Some(r.value[i])
  {
    if calls == [] then Some([])
    else
      var first := CallItemFor(calls[0], projections, get, columns);
      var rest := CallItems(calls[1..], projections, get, columns);
      if first.None? || rest.None? then None else Some([first.value] + rest.value)
  }

  /** The statement's columns: the group keys and then the aggregates; nothing when one cannot be sent, or when the
      scan or the grouping is more than a statement with GROUP BY says. */
  function PlanItems(aggregate: Aggregate, scan: Scan, projections: seq<Projection>, get: Get,
                     columns: seq<ColumnInfo>): Option<seq<Item>>
  {
    var keys := GroupItems(aggregate.groups, projections, get, columns);
    var rest := CallItems(aggregate.calls, projections, get, columns);
    if !aggregate.Single() || !scan.Reads() then None
    else if keys.None? || rest.None? || keys.value + rest.value == [] then None else Some(keys.value + rest.value)
  }

  /** A plan is made exactly when there is one grouping by all the keys, the scan only reads, every key is a key column
      and every call plain and over a column it may be sent for, and there is something to select. */
  lemma PlannedExactly(aggregate: Aggregate, scan: Scan, projections: seq<Projection>, get: Get, columns: seq<ColumnInfo>)
    ensures PlanItems(aggregate, scan, projections, get, columns).Some?
      <==> && aggregate.Single() && scan.Reads() && |aggregate.groups| + |aggregate.calls| > 0
           && (forall i :: 0 <= i < |aggregate.groups| ==>
                 GroupItemFor(aggregate.groups[i], projections, get, columns).Some?)
           && (forall i :: 0 <= i < |aggregate.calls| ==>
                 CallItemFor(aggregate.calls[i], projections, get, columns).Some?)
  {
    hide GroupItemFor, CallItemFor;
    AllGroupItems(aggregate.groups, projections, get, columns);
    AllCallItems(aggregate.calls, projections, get, columns);
  }

  lemma {:induction false} AllGroupItems(groups: seq<Group>, projections: seq<Projection>, get: Get,
                                         columns: seq<ColumnInfo>)
    ensures GroupItems(groups, projections, get, columns).Some?
      <==> forall i :: 0 <= i < |groups| ==> GroupItemFor(groups[i], projections, get, columns).Some?
  {
    hide GroupItemFor;
    if groups != [] {
      AllGroupItems(groups[1..], projections, get, columns);
      assert forall i :: 1 <= i < |groups| ==> groups[i] == groups[1..][i - 1];
    }
  }

  lemma {:induction false} AllCallItems(calls: seq<Call>, projections: seq<Projection>, get: Get, columns: seq<ColumnInfo>)
    ensures CallItems(calls, projections, get, columns).Some?
      <==> forall i :: 0 <= i < |calls| ==> CallItemFor(calls[i], projections, get, columns).Some?
  {
    hide CallItemFor;
    if calls != [] {
      AllCallItems(calls[1..], projections, get, columns);
      assert forall i :: 1 <= i < |calls| ==> calls[i] == calls[1..][i - 1];
    }
  }

  /** The refusals, and the loops that add one column of the statement after another. */
  method PlanPushedAggregate(aggregate: Aggregate, scan: Scan, projections: seq<Projection>, get: Get,
                             columns: seq<ColumnInfo>)
    returns (items: Option<seq<Item>>)
    ensures items == PlanItems(aggregate, scan, projections, get, columns)
  {
    hide GroupItemFor, CallItemFor;
    if !aggregate.Single() || !scan.Reads() {
      return None;
    }
    var groups, calls := aggregate.groups, aggregate.calls;
    var added: seq<Item> := [];
    assert groups[0..] == groups && calls[0..] == calls;
    NothingBehind(GroupItems(groups, projections, get, columns));
    NothingBehind(CallItems(calls, projections, get, columns));
    for i := 0 to |groups|
      invariant GroupItems(groups, projections, get, columns)
        == Behind(added, GroupItems(groups[i..], projections, get, columns))
    {
      var rest := groups[i..];
      assert rest[0] == groups[i] && rest[1..] == groups[i + 1..];
      var item := GroupItemFor(groups[i], projections, get, columns);
      if item.None? {
        return None;
      }
      BehindTwice(added, [item.value], GroupItems(groups[i + 1..], projections, get, columns));
      added := added + [item.value];
    }
    assert GroupItems(groups, projections, get, columns) == Some(added) by {
      assert added + [] == added;
    }
    var called: seq<Item> := [];
    for i := 0 to |calls|
      invariant CallItems(calls, projections, get, columns)
        == Behind(called, CallItems(calls[i..], projections, get, columns))
    {
      var rest := calls[i..];
      assert rest[0] == calls[i] && rest[1..] == calls[i + 1..];
      var item := CallItemFor(calls[i], projections, get, columns);
      if item.None? {
        return None;
      }
      BehindTwice(called, [item.value], CallItems(calls[i + 1..], projections, get, columns));
      called := called + [item.value];
    }
    assert called + [] == called;
    return if added + called == [] then None else Some(added + called);
  }

  // ----- the rows of a result

  /** The rows that agree with a row, or do not. */
  function Agreeing(rows: seq<Row>, with_: Row, same: (Row, Row) -> bool, wanted: bool): (r: seq<Row>)
    ensures |r| <= |rows| && forall row :: row in r ==> row in rows
  {
    if rows == [] then []
    else (if same(with_, rows[0]) == wanted then [rows[0]] else []) + Agreeing(rows[1..], with_, same, wanted)
  }

  /** The groups: the rows that agree with the first, and then the groups of the others. */
  function GroupsOf(rows: seq<Row>, same: (Row, Row) -> bool): (groups: seq<seq<Row>>)
    ensures forall g :: g in groups ==> forall row :: row in g ==> row in rows
    decreases |rows|
  {
    if rows == [] then []
    else
      [[rows[0]] + Agreeing(rows[1..], rows[0], same, true)] + GroupsOf(Agreeing(rows[1..], rows[0], same, false), same)
  }

  /** Without group keys everything is one group, even nothing. */
  function GroupRows(rows: seq<Row>, keyed: bool, same: (Row, Row) -> bool): seq<seq<Row>> {
    if keyed then GroupsOf(rows, same) else [rows]
  }

  predicate IsKey(items: seq<Item>) {
    exists i :: 0 <= i < |items| && items[i].GroupItem?
  }

  /** Two rows agree on the stored values of every key, NULL with NULL. */
  function SameStored(items: seq<Item>): (Row, Row) -> bool {
    (a: Row, b: Row) => forall i :: 0 <= i < |items| && items[i].GroupItem? ==> StoredAt(a, items[i].column) == StoredAt(b, items[i].column)
  }

  function SameRead(items: seq<Item>): (Row, Row) -> bool {
    (a: Row, b: Row) => forall i :: 0 <= i < |items| && items[i].GroupItem? ==> ReadAt(a, items[i].column) == ReadAt(b, items[i].column)
  }

  function StoredAt(row: Row, column: nat): Stored {
    if column < |row.stored| then row.stored[column] else NullStored
  }

  function ReadAt(row: Row, column: nat): Value {
    if column < |row.read| then row.read[column] else NullValue
  }

  function SumValue(sum: Option<real>): Value {
    if sum.None? then NullValue else NumberValue(sum.value)
  }

  /** What DuckDB computes for a column of the result over one group. */
  function DuckItem(item: Item, group: seq<Row>): Value {
    match item
    case GroupItem(column) => if group == [] then NullValue else ReadAt(group[0], column)
    case CountAllItem => NumberValue(|group| as real)
    case CountItem(column) => NumberValue(CountRead(group, column) as real)
    case SumItem(column) => SumValue(SumRead(group, column))
    case BestItem(column, greatest) => BestRead(group, column, greatest)
  }

  /** What is read from what Oracle computes for it; nothing when reading fails. */
  function OracleItem(item: Item, group: seq<Row>, columns: seq<ColumnInfo>, conversions: Conversions): Option<Value> {
    match item
    case GroupItem(column) =>
      if column >= |columns| then None
      else ReadValue(if group == [] then NullStored else StoredAt(group[0], column), columns[column], conversions)
    case CountAllItem => Some(NumberValue(|group| as real))
    case CountItem(column) => Some(NumberValue(CountStored(group, column) as real))
    case SumItem(column) => Some(SumValue(SumStored(group, column)))
    case BestItem(column, greatest) =>
      if column >= |columns| then None else ReadValue(Best(group, column, greatest), columns[column], conversions)
  }

  /** A column of a result that may be sent. */
  predicate ItemFits(item: Item, columns: seq<ColumnInfo>) {
    match item
    case GroupItem(column) => column < |columns| && KeyColumn(columns[column])
    case CountAllItem => true
    case CountItem(column) => column < |columns|
    case SumItem(column) => column < |columns| && SummableColumn(columns[column])
    case BestItem(column, _) => column < |columns| && KeyType(columns[column])
  }

  lemma ItemReadsTheSame(item: Item, group: seq<Row>, columns: seq<ColumnInfo>, conversions: Conversions)
    requires ItemFits(item, columns) && AllRead(group, columns, conversions)
    ensures OracleItem(item, group, columns, conversions) == Some(DuckItem(item, group))
  {
    hide KeyColumn, SummableColumn, KeyType, Storable, ReadNumber;
    match item
    case GroupItem(column) =>
    case CountAllItem =>
    case CountItem(column) => CountsAgree(group, column, columns, conversions);
    case SumItem(column) => SumsAgree(group, column, columns, conversions);
    case BestItem(column, greatest) => BestReadsAsBest(group, column, greatest, columns, conversions);
  }

  function DuckRow(items: seq<Item>, group: seq<Row>): (r: seq<Value>)
    ensures |r| == |items| && forall i :: 0 <= i < |r| ==> r[i] == DuckItem(items[i], group)
  {
    if items == [] then [] else [DuckItem(items[0], group)] + DuckRow(items[1..], group)
  }

  function OracleRow(items: seq<Item>, group: seq<Row>, columns: seq<ColumnInfo>, conversions: Conversions): (r: seq<Option<Value>>)
    ensures |r| == |items| && forall i :: 0 <= i < |r| ==> r[i] == OracleItem(items[i], group, columns, conversions)
  {
    if items == [] then []
    else [OracleItem(items[0], group, columns, conversions)] + OracleRow(items[1..], group, columns, conversions)
  }

  function AllGot(values: seq<Value>): (r: seq<Option<Value>>)
    ensures |r| == |values| && forall i :: 0 <= i < |r| ==> r[i] == Some(values[i])
  {
    if values == [] then [] else [Some(values[0])] + AllGot(values[1..])
  }

  /** The rows DuckDB's AGGREGATE returns. */
  function DuckRows(items: seq<Item>, groups: seq<seq<Row>>): seq<seq<Option<Value>>> {
    if groups == [] then [] else [AllGot(DuckRow(items, groups[0]))] + DuckRows(items, groups[1..])
  }

  /** The rows the statement returns, as they are read. */
  function OracleRows(items: seq<Item>, groups: seq<seq<Row>>, columns: seq<ColumnInfo>, conversions: Conversions): seq<seq<Option<Value>>> {
    if groups == [] then []
    else [OracleRow(items, groups[0], columns, conversions)] + OracleRows(items, groups[1..], columns, conversions)
  }

  predicate AllFit(items: seq<Item>, columns: seq<ColumnInfo>) {
    forall i :: 0 <= i < |items| ==> ItemFits(items[i], columns)
  }

  lemma RowReadsTheSame(items: seq<Item>, group: seq<Row>, columns: seq<ColumnInfo>, conversions: Conversions)
    requires AllFit(items, columns) && AllRead(group, columns, conversions)
    ensures OracleRow(items, group, columns, conversions) == AllGot(DuckRow(items, group))
  {
    hide ItemFits, AllRead, OracleItem, DuckItem;
    forall i | 0 <= i < |items|
      ensures OracleRow(items, group, columns, conversions)[i] == AllGot(DuckRow(items, group))[i]
    {
      ItemReadsTheSame(items[i], group, columns, conversions);
    }
  }

  lemma {:induction false} RowsReadTheSame(
    items: seq<Item>, groups: seq<seq<Row>>, columns: seq<ColumnInfo>, conversions: Conversions)
    requires AllFit(items, columns) && forall g :: g in groups ==> AllRead(g, columns, conversions)
    ensures OracleRows(items, groups, columns, conversions) == DuckRows(items, groups)
  {
    hide AllFit, AllRead, OracleRow, DuckRow, AllGot;
    if groups != [] {
      assert groups[0] in groups;
      RowReadsTheSame(items, groups[0], columns, conversions);
      RowsReadTheSame(items, groups[1..], columns, conversions);
    }
  }

  // ----- the same groups

  lemma SameKeys(items: seq<Item>, a: Row, b: Row, columns: seq<ColumnInfo>, conversions: Conversions)
    requires AllFit(items, columns) && ReadsAs(a, columns, conversions) && ReadsAs(b, columns, conversions)
    ensures SameStored(items)(a, b) == SameRead(items)(a, b)
  {
    hide KeyColumn, ReadValue, Storable, SummableColumn, KeyType;
    forall i | 0 <= i < |items| && items[i].GroupItem?
      ensures StoredAt(a, items[i].column) == StoredAt(b, items[i].column)
        <==> ReadAt(a, items[i].column) == ReadAt(b, items[i].column)
    {
      assert ItemFits(items[i], columns);
      KeysMatch(a, b, items[i].column, columns, conversions);
    }
  }

  lemma {:induction false} AgreeingTheSame(
    rows: seq<Row>, with_: Row, wanted: bool, items: seq<Item>, columns: seq<ColumnInfo>, conversions: Conversions)
    requires AllFit(items, columns) && ReadsAs(with_, columns, conversions) && AllRead(rows, columns, conversions)
    ensures Agreeing(rows, with_, SameStored(items), wanted) == Agreeing(rows, with_, SameRead(items), wanted)
  {
    hide AllFit, ReadsAs, SameStored, SameRead;
    if rows != [] {
      SameKeys(items, with_, rows[0], columns, conversions);
      AgreeingTheSame(rows[1..], with_, wanted, items, columns, conversions);
    }
  }

  lemma {:induction false} GroupsTheSame(
    rows: seq<Row>, items: seq<Item>, columns: seq<ColumnInfo>, conversions: Conversions)
    requires AllFit(items, columns) && AllRead(rows, columns, conversions)
    ensures GroupsOf(rows, SameStored(items)) == GroupsOf(rows, SameRead(items))
    decreases |rows|
  {
    hide AllFit, ReadsAs, SameStored, SameRead, Agreeing;
    if rows != [] {
      AgreeingTheSame(rows[1..], rows[0], true, items, columns, conversions);
      AgreeingTheSame(rows[1..], rows[0], false, items, columns, conversions);
      var others := Agreeing(rows[1..], rows[0], SameRead(items), false);
      SubsetRead(rows, others, columns, conversions);
      GroupsTheSame(others, items, columns, conversions);
    }
  }

  lemma SubsetRead(rows: seq<Row>, some: seq<Row>, columns: seq<ColumnInfo>, conversions: Conversions)
    requires AllRead(rows, columns, conversions) && forall row :: row in some ==> row in rows
    ensures AllRead(some, columns, conversions)
  {
    hide ReadsAs;
    forall i | 0 <= i < |some| ensures ReadsAs(some[i], columns, conversions) {
      assert some[i] in rows;
    }
  }

  /**
   The rewrite keeps the result. For any rows that pass the filter, the rows the statement returns, once read, are
   the rows the AGGREGATE would have returned: the same groups, NULL keys together, one row of totals when there
   are no keys even over nothing, and in each the same counts, sums, least and greatest values.
   */
  lemma PushedAggregateReturnsTheSame(
    items: seq<Item>, rows: seq<Row>, columns: seq<ColumnInfo>, conversions: Conversions)
    requires AllFit(items, columns) && AllRead(rows, columns, conversions)
    ensures OracleRows(items, GroupRows(rows, IsKey(items), SameStored(items)), columns, conversions)
         == DuckRows(items, GroupRows(rows, IsKey(items), SameRead(items)))
  {
    hide AllFit, ReadsAs, SameStored, SameRead, OracleRows, DuckRows;
    GroupsTheSame(rows, items, columns, conversions);
    var groups := GroupRows(rows, IsKey(items), SameRead(items));
    forall g | g in groups ensures AllRead(g, columns, conversions) {
      SubsetRead(rows, g, columns, conversions);
    }
    RowsReadTheSame(items, groups, columns, conversions);
  }

  /** The type of a column of the statement as it is read, a sum of integers cast from its text. */
  function ItemType(item: Item, columns: seq<ColumnInfo>): Type
    requires ItemFits(item, columns)
  {
    match item
    case GroupItem(column) => MappedType(columns[column])
    case CountAllItem => BigintType
    case CountItem(_) => BigintType
    case SumItem(column) => SumType(columns[column])
    case BestItem(column, _) => MappedType(columns[column])
  }

  /** Each column of what is planned is of the type the plan has for it; COUNT(*), whose type in the plan is not
      looked at, is a BIGINT. */
  lemma PlannedTypes(aggregate: Aggregate, scan: Scan, projections: seq<Projection>, get: Get, columns: seq<ColumnInfo>)
    requires PlanItems(aggregate, scan, projections, get, columns).Some?
    ensures var items := PlanItems(aggregate, scan, projections, get, columns).value;
      var groups, calls := aggregate.groups, aggregate.calls;
      && |items| == |groups| + |calls| && AllFit(items, columns)
      && (forall i :: 0 <= i < |groups| ==> ItemType(items[i], columns) == groups[i].wanted)
      && (forall i :: 0 <= i < |calls| && !calls[i].kind.CountStar? ==>
            ItemType(items[|groups| + i], columns) == calls[i].wanted)
  {
    PlannedItemsFit(aggregate, scan, projections, get, columns);
    var groups, calls := aggregate.groups, aggregate.calls;
    hide KeyColumn, SummableColumn, KeyType, Resolve, MappedType, SumType;
    var keys := GroupItems(groups, projections, get, columns).value;
    var rest := CallItems(calls, projections, get, columns).value;
    assert forall i :: 0 <= i < |keys| ==> GroupItemFor(groups[i], projections, get, columns) == Some(keys[i]);
    assert forall i :: 0 <= i < |rest| ==> CallItemFor(calls[i], projections, get, columns) == Some(rest[i]);
  }

  /** What is planned may be sent. */
  lemma PlannedItemsFit(aggregate: Aggregate, scan: Scan, projections: seq<Projection>, get: Get,
                        columns: seq<ColumnInfo>)
    requires PlanItems(aggregate, scan, projections, get, columns).Some?
    ensures AllFit(PlanItems(aggregate, scan, projections, get, columns).value, columns)
  {
    var groups, calls := aggregate.groups, aggregate.calls;
    hide KeyColumn, SummableColumn, KeyType, Resolve;
    var keys := GroupItems(groups, projections, get, columns).value;
    var rest := CallItems(calls, projections, get, columns).value;
    assert forall i :: 0 <= i < |keys| ==> GroupItemFor(groups[i], projections, get, columns) == Some(keys[i]);
    assert forall i :: 0 <= i < |rest| ==> CallItemFor(calls[i], projections, get, columns) == Some(rest[i]);
  }

  // ----- the bindings

  /** Where a binding of the AGGREGATE is found after the rewrite. */
  function Rebound(binding: Binding, groupIndex: nat, aggregateIndex: nat, groups: nat): Binding {
    if binding.table == aggregateIndex then Binding(groupIndex, groups + binding.index) else binding
  }

  /** The item a binding of the AGGREGATE names: a group key under one node number, an aggregate under another. */
  function NamedItem(binding: Binding, groupIndex: nat, aggregateIndex: nat, items: seq<Item>, groups: nat): Option<Item> {
    if binding.table == groupIndex && binding.index < groups && binding.index < |items| then Some(items[binding.index])
    else if binding.table == aggregateIndex && groups + binding.index < |items| then Some(items[groups + binding.index])
    else None
  }

  /** In every row of the result a binding of the AGGREGATE, moved, is where the value is that it named there. */
  lemma BindingsFollow(binding: Binding, groupIndex: nat, aggregateIndex: nat, items: seq<Item>, groups: nat,
                       group: seq<Row>, columns: seq<ColumnInfo>, conversions: Conversions)
    requires groupIndex != aggregateIndex && groups <= |items|
    requires NamedItem(binding, groupIndex, aggregateIndex, items, groups).Some?
    requires AllFit(items, columns) && AllRead(group, columns, conversions)
    ensures var moved := Rebound(binding, groupIndex, aggregateIndex, groups);
      && moved.table == groupIndex && moved.index < |items|
      && OracleRow(items, group, columns, conversions)[moved.index]
         == Some(DuckItem(NamedItem(binding, groupIndex, aggregateIndex, items, groups).value, group))
  {
    RowReadsTheSame(items, group, columns, conversions);
  }
}
