/**
 Pushing ORDER BY ... LIMIT into a scan (oracle_optimizer.cpp): Oracle ranks the stored values and returns the first
 rows, DuckDB sorts the values it reads from them and cuts again, and the result is one the whole table could
 have given.
 */
module TopN {
  import opened Protocol
  import opened ColumnValues

  const MAX_PUSHED_TOP_N: nat := 100000

  datatype Key = Key(column: nat, descending: bool, nullsFirst: bool)

  // ----- the order

  /** The value a row is sorted by; nothing for NULL. */
  type SortValue = Option<real>

  /** Less than zero, zero, or more: where `a` comes relative to `b` by one key. */
  function CompareBy(key: Key, a: SortValue, b: SortValue): int {
    if a.None? && b.None? then 0
    else if a.None? then if key.nullsFirst then -1 else 1
    else if b.None? then if key.nullsFirst then 1 else -1
    else if a.value == b.value then 0
    else if (a.value < b.value) != key.descending then -1
    else 1
  }

  /** A row as the values it can be sorted by. */
  type SortRow = seq<SortValue>

  function At(row: SortRow, column: nat): SortValue {
    if column < |row| then row[column] else None
  }

  /** By the first key, then the second, and so on. */
  function Compare(keys: seq<Key>, a: SortRow, b: SortRow): int {
    if keys == [] then 0
    else
      var first := CompareBy(keys[0], At(a, keys[0].column), At(b, keys[0].column));
      if first != 0 then first else Compare(keys[1..], a, b)
  }

  /** One engine's view of a row: what it sorts the row by. */
  type View<!R> = R -> SortRow

  predicate NotAfter<R>(keys: seq<Key>, view: View<R>, a: R, b: R) {
    Compare(keys, view(a), view(b)) <= 0
  }

  lemma {:induction false} CompareFlips(keys: seq<Key>, a: SortRow, b: SortRow)
    ensures Compare(keys, a, b) < 0 <==> Compare(keys, b, a) > 0
    ensures Compare(keys, a, b) == 0 <==> Compare(keys, b, a) == 0
  {
    if keys != [] {
      CompareFlips(keys[1..], a, b);
    }
  }

  lemma {:induction false} CompareChains(keys: seq<Key>, a: SortRow, b: SortRow, c: SortRow)
    requires Compare(keys, a, b) <= 0 && Compare(keys, b, c) <= 0
    ensures Compare(keys, a, c) <= 0
    ensures Compare(keys, a, c) == 0 ==> Compare(keys, a, b) == 0 && Compare(keys, b, c) == 0
  {
    if keys != [] && CompareBy(keys[0], At(a, keys[0].column), At(b, keys[0].column)) == 0
       && CompareBy(keys[0], At(b, keys[0].column), At(c, keys[0].column)) == 0 {
      CompareChains(keys[1..], a, b, c);
    }
  }

  // ----- sorting

  ghost predicate Sorted<R>(keys: seq<Key>, view: View<R>, rows: seq<R>) {
    forall i, j :: 0 <= i < j < |rows| ==> NotAfter(keys, view, rows[i], rows[j])
  }

  ghost predicate SortOf<R>(keys: seq<Key>, view: View<R>, sorted: seq<R>, rows: multiset<R>) {
    multiset(sorted) == rows && Sorted(keys, view, sorted)
  }

  function Insert<R>(keys: seq<Key>, view: View<R>, row: R, sorted: seq<R>): seq<R> {
    if sorted == [] then [row]
    else if NotAfter(keys, view, row, sorted[0]) then [row] + sorted
    else [sorted[0]] + Insert(keys, view, row, sorted[1..])
  }

  lemma SortedCons<R>(keys: seq<Key>, view: View<R>, first: R, rest: seq<R>)
    requires Sorted(keys, view, rest) && forall row :: row in multiset(rest) ==> NotAfter(keys, view, first, row)
    ensures Sorted(keys, view, [first] + rest)
  {
    hide NotAfter;
    forall j | 0 <= j < |rest| ensures NotAfter(keys, view, first, rest[j]) {
      assert rest[j] in multiset(rest);
    }
  }

  lemma FirstIsLeast<R>(keys: seq<Key>, view: View<R>, row: R, sorted: seq<R>)
    requires Sorted(keys, view, sorted) && sorted != [] && NotAfter(keys, view, row, sorted[0])
    ensures forall other :: other in multiset(sorted) ==> NotAfter(keys, view, row, other)
  {
    hide Compare;
    forall other | other in multiset(sorted) ensures NotAfter(keys, view, row, other) {
      var j :| 0 <= j < |sorted| && sorted[j] == other;
      if j > 0 {
        assert NotAfter(keys, view, sorted[0], sorted[j]);
        CompareChains(keys, view(row), view(sorted[0]), view(sorted[j]));
      }
    }
  }

  lemma RestIsSorted<R>(keys: seq<Key>, view: View<R>, sorted: seq<R>)
    requires Sorted(keys, view, sorted) && sorted != []
    ensures Sorted(keys, view, sorted[1..])
    ensures forall row :: row in multiset(sorted[1..]) ==> NotAfter(keys, view, sorted[0], row)
  {
    hide NotAfter;
    forall row | row in multiset(sorted[1..]) ensures NotAfter(keys, view, sorted[0], row) {
      var j :| 0 <= j < |sorted| - 1 && sorted[1..][j] == row;
      assert sorted[j + 1] == row;
    }
  }

  lemma {:induction false} InsertSorts<R>(keys: seq<Key>, view: View<R>, row: R, sorted: seq<R>)
    requires Sorted(keys, view, sorted)
    ensures SortOf(keys, view, Insert(keys, view, row, sorted), multiset(sorted) + multiset{row})
  {
    if sorted == [] {
      assert Insert(keys, view, row, sorted) == [row];
    } else {
      var first, rest := sorted[0], sorted[1..];
      CompareFlips(keys, view(row), view(first));
      assert NotAfter(keys, view, row, first) || NotAfter(keys, view, first, row);
      hide Sorted, NotAfter;
      assert sorted == [first] + rest;
      if NotAfter(keys, view, row, first) {
        FirstIsLeast(keys, view, row, sorted);
        SortedCons(keys, view, row, sorted);
      } else {
        RestIsSorted(keys, view, sorted);
        InsertSorts(keys, view, row, rest);
        SortedCons(keys, view, first, Insert(keys, view, row, rest));
      }
    }
  }

  /** Every bag of rows has a sorted order. */
  lemma {:induction false} CanBeSorted<R>(keys: seq<Key>, view: View<R>, rows: multiset<R>) returns (sorted: seq<R>)
    ensures SortOf(keys, view, sorted, rows)
    decreases |rows|
  {
    if rows == multiset{} {
      sorted := [];
    } else {
      var row: R :| row in rows;
      sorted := CanBeSorted(keys, view, rows - multiset{row});
      InsertSorts(keys, view, row, sorted);
      sorted := Insert(keys, view, row, sorted);
    }
  }

  // ----- first rows

  /** What ORDER BY keys OFFSET offset LIMIT limit may return: a slice of some sorted order of the rows. */
  ghost predicate Result<R(!new)>(
    keys: seq<Key>, view: View<R>, rows: multiset<R>, offset: nat, limit: nat, result: seq<R>)
  {
    exists sorted :: SortOf(keys, view, sorted, rows) && result == Slice(sorted, offset, limit)
  }

  function Slice<R>(rows: seq<R>, offset: nat, limit: nat): seq<R> {
    if offset >= |rows| then [] else rows[offset..Min(offset + limit, |rows|)]
  }

  /** What ORDER BY keys FETCH FIRST n ROWS ONLY may return, ties at the end broken in any way. */
  ghost predicate FirstRows<R(!new)>(keys: seq<Key>, view: View<R>, rows: multiset<R>, n: nat, fetched: multiset<R>) {
    exists sorted :: SortOf(keys, view, sorted, rows) && fetched == multiset(Slice(sorted, 0, n))
  }

  /** Whatever the rows, there are first rows to return, and an order to sort them in again. */
  lemma FirstRowsExist<R(!new)>(keys: seq<Key>, view: View<R>, rows: multiset<R>, n: nat)
    returns (fetched: multiset<R>, again: seq<R>)
    ensures FirstRows(keys, view, rows, n, fetched) && SortOf(keys, view, again, fetched)
  {
    var sorted := CanBeSorted(keys, view, rows);
    fetched := multiset(Slice(sorted, 0, n));
    again := CanBeSorted(keys, view, fetched);
  }

  lemma SortedFront<R>(keys: seq<Key>, view: View<R>, sorted: seq<R>, n: nat, a: R, b: R)
    requires Sorted(keys, view, sorted) && n <= |sorted| && a in multiset(sorted[..n]) && b in multiset(sorted[n..])
    ensures NotAfter(keys, view, a, b)
  {
    hide NotAfter;
    var i :| 0 <= i < n && sorted[..n][i] == a;
    var j :| 0 <= j < |sorted| - n && sorted[n..][j] == b;
    assert sorted[n + j] == b;
  }

  /** A front sorted again and the back it was cut from are a sorted order of the whole. */
  lemma SortedAgain<R>(keys: seq<Key>, view: View<R>, sorted: seq<R>, n: nat, again: seq<R>)
    requires Sorted(keys, view, sorted) && n <= |sorted|
    requires SortOf(keys, view, again, multiset(sorted[..n]))
    ensures |again| == n && SortOf(keys, view, again + sorted[n..], multiset(sorted))
  {
    hide NotAfter;
    var back := sorted[n..];
    assert sorted == sorted[..n] + back;
    assert |again| == |multiset(again)| == |multiset(sorted[..n])| == n;
    var whole := again + back;
    forall i, j | 0 <= i < j < |whole| ensures NotAfter(keys, view, whole[i], whole[j]) {
      if i < n <= j {
        assert whole[i] == again[i] && whole[i] in multiset(again);
        assert whole[j] == back[j - n] && whole[j] in multiset(back);
        SortedFront(keys, view, sorted, n, whole[i], whole[j]);
      } else if n <= i {
        assert whole[i] == sorted[i] && whole[j] == sorted[j];
      }
    }
  }

  /** Sorting and cutting the first rows gives what sorting and cutting them all may give. */
  lemma CutOfFirstRowsIsAResult<R(!new)>(
    keys: seq<Key>, view: View<R>, rows: multiset<R>, offset: nat, limit: nat, fetched: multiset<R>, again: seq<R>)
    requires FirstRows(keys, view, rows, limit + offset, fetched) && SortOf(keys, view, again, fetched)
    ensures Result(keys, view, rows, offset, limit, Slice(again, offset, limit))
  {
    hide Sorted, Slice;
    var sorted :| SortOf(keys, view, sorted, rows) && fetched == multiset(Slice(sorted, 0, limit + offset));
    var n := Min(limit + offset, |sorted|);
    SliceIsFront(sorted, limit + offset);
    SortedAgain(keys, view, sorted, n, again);
    hide SortOf;
    SliceOfFront(again, sorted[n..], offset, limit);
  }

  /** A slice needs nothing behind its end. */
  lemma SliceOfFront<R>(front: seq<R>, back: seq<R>, offset: nat, limit: nat)
    requires back == [] || |front| >= offset + limit
    ensures Slice(front + back, offset, limit) == Slice(front, offset, limit)
  {
    if back == [] {
      assert front + back == front;
    }
  }

  lemma SliceIsFront<R>(rows: seq<R>, n: nat)
    ensures Slice(rows, 0, n) == rows[..Min(n, |rows|)]
  {
  }

  // ----- which keys are sent

  /** A type that both engines order by value: the numbers and instants a column is read as. */
  predicate Orderable(column: ColumnInfo) {
    && !RoundsOnRead(column)
    && ((column.oracleType == TYPE_NUMBER && (MapNumber(column).ToBigint? || MapNumber(column).ToDecimal?))
        || column.oracleType in {TYPE_DATE, TYPE_TIMESTAMP, TYPE_TIMESTAMP_LTZ})
  }

  function StoredSortValue(stored: Stored): SortValue {
    match stored
    case StoredNumber(number) => Some(number)
    case StoredInstant(nanoseconds) => Some(nanoseconds as real)
    case _ => None
  }

  function ReadSortValue(value: Value): SortValue {
    match value
    case NumberValue(number) => Some(number)
    case InstantValue(nanoseconds) => Some(nanoseconds as real)
    case _ => None
  }

  /** What Oracle sorts by is what DuckDB sorts by. */
  lemma OrderableReadsTheSame(stored: Stored, column: ColumnInfo, value: Value, conversions: Conversions)
    requires Orderable(column) && Storable(stored, column) && ReadValue(stored, column, conversions) == Some(value)
    ensures StoredSortValue(stored) == ReadSortValue(value)
  {
    hide MapNumber, ReadNumber, Fits;
    if stored.StoredNumber? {
      ReadsExactly(stored, column, conversions);
    }
  }

  /** A column whose values are rounded is not sent: it would be ranked by what DuckDB never sees. By the first
      key 1.2 comes before 1.21, and for DuckDB the two are equal and the second key decides. */
  lemma RoundedKeyRanksOtherwise()
    ensures var keys := [Key(0, false, false), Key(1, false, false)];
      && !Orderable(ColumnInfo(TYPE_NUMBER, 1, 0, -127, AsDecimal(10, 1)))
      && Compare(keys, [Some(1.2), Some(2.0)], [Some(1.21), Some(1.0)]) < 0
      && Compare(keys, [Some(1.2), Some(2.0)], [Some(1.2), Some(1.0)]) > 0
  {
    var keys := [Key(0, false, false), Key(1, false, false)];
    assert keys[1..] == [Key(1, false, false)];
  }

  // ----- from the plan's bindings to the scan's columns

  /** A column of a plan node. */
  datatype Binding = Binding(table: nat, index: nat)

  /** An expression of a projection: a column below it, or anything else. */
  datatype Projected = Column(binding: Binding) | Computed

  datatype Projection = Projection(table: nat, expressions: seq<Projected>)

  /** A scan: its node, and the table column at each position of its output. */
  datatype Get = Get(table: nat, columnIds: seq<nat>)

  /** The table column a binding comes down to, through projections that pass it on unchanged. */
  function Resolve(projections: seq<Projection>, get: Get, binding: Binding): Option<nat> {
    if projections == [] then
      if binding.table == get.table && binding.index < |get.columnIds| then Some(get.columnIds[binding.index]) else None
    else
      var top := projections[0];
      if binding.table != top.table || binding.index >= |top.expressions| then None
      else if top.expressions[binding.index].Computed? then None
      else Resolve(projections[1..], get, top.expressions[binding.index].binding)
  }

  /** The loop that follows a binding down. */
  method ResolveToScanColumn(projections: seq<Projection>, get: Get, binding: Binding) returns (column: Option<nat>)
    ensures column == Resolve(projections, get, binding)
  {
    var current := binding;
    for i := 0 to |projections|
      invariant Resolve(projections, get, binding) == Resolve(projections[i..], get, current)
    {
      var projection := projections[i];
      assert projections[i..][1..] == projections[i + 1..];
      if current.table != projection.table || current.index >= |projection.expressions| {
        return None;
      }
      var expression := projection.expressions[current.index];
      if expression.Computed? {
        return None;
      }
      current := expression.binding;
    }
    if current.table != get.table || current.index >= |get.columnIds| {
      return None;
    }
    return Some(get.columnIds[current.index]);
  }

  /** What a binding holds in the output of a stack of projections over a row of the table; `computed` is
      everything that is not passed on. */
  function Output<V>(projections: seq<Projection>, get: Get, row: seq<V>, binding: Binding, computed: V): V {
    if projections == [] then
      if binding.index < |get.columnIds| && get.columnIds[binding.index] < |row| then row[get.columnIds[binding.index]]
      else computed
    else
      var top := projections[0];
      if binding.index >= |top.expressions| || top.expressions[binding.index].Computed? then computed
      else Output(projections[1..], get, row, top.expressions[binding.index].binding, computed)
  }

  /** A binding that comes down to a column holds that column's value in every row. */
  lemma {:induction false} ResolvedHoldsTheColumn<V>(
    projections: seq<Projection>, get: Get, row: seq<V>, binding: Binding, computed: V)
    requires Resolve(projections, get, binding).Some? && Resolve(projections, get, binding).value < |row|
    ensures Output(projections, get, row, binding, computed) == row[Resolve(projections, get, binding).value]
  {
    if projections != [] {
      ResolvedHoldsTheColumn(projections[1..], get, row, projections[0].expressions[binding.index].binding, computed);
    }
  }

  // ----- the decision

  /** One ORDER BY of a plan: a column or something computed, with its direction and where its NULLs go. */
  datatype Order = Order(expression: Projected, descending: bool, nullsFirst: Option<bool>)

  /** What a scan is told. */
  datatype Pushed = Pushed(keys: seq<Key>, rows: nat)

  function KeyFor(order: Order, projections: seq<Projection>, get: Get, columns: seq<ColumnInfo>): Option<Key> {
    if order.expression.Computed? || order.nullsFirst.None? then None
    else
      var column := Resolve(projections, get, order.expression.binding);
      if column.None? || column.value >= |columns| || !Orderable(columns[column.value]) then None
      else Some(Key(column.value, order.descending, order.nullsFirst.value))
  }

  /** The decision at a TOP_N node: every key is one Oracle orders as DuckDB does, or nothing is pushed. */
  method PushTopN(orders: seq<Order>, limit: nat, offset: nat, projections: seq<Projection>, get: Get,
                  columns: seq<ColumnInfo>)
    returns (pushed: Option<Pushed>)
    ensures pushed.Some? <==>
      && orders != [] && limit <= MAX_PUSHED_TOP_N && offset <= MAX_PUSHED_TOP_N
      && forall i :: 0 <= i < |orders| ==> KeyFor(orders[i], projections, get, columns).Some?
    ensures pushed.Some? ==>
      && pushed.value.rows == limit + offset && |pushed.value.keys| == |orders|
      && forall i :: 0 <= i < |orders| ==> KeyFor(orders[i], projections, get, columns) == Some(pushed.value.keys[i])
    ensures pushed.Some? ==> KeysOrderable(pushed.value.keys, columns)
  {
    if limit > MAX_PUSHED_TOP_N || offset > MAX_PUSHED_TOP_N {
      return None;
    }
    var keys := [];
    for i := 0 to |orders|
      invariant |keys| == i
      invariant forall k :: 0 <= k < i ==> KeyFor(orders[k], projections, get, columns) == Some(keys[k])
    {
      if orders[i].expression.Computed? || orders[i].nullsFirst.None? {
        return None;
      }
      var column := ResolveToScanColumn(projections, get, orders[i].expression.binding);
      if column.None? || column.value >= |columns| || !Orderable(columns[column.value]) {
        return None;
      }
      keys := keys + [Key(column.value, orders[i].descending, orders[i].nullsFirst.value)];
    }
    return if keys == [] then None else Some(Pushed(keys, limit + offset));
  }

  /** The clause is sent only when no filter is left for DuckDB and no sample is taken. */
  predicate SendsClause(keys: seq<Key>, localFilter: bool, sampled: bool) {
    keys != [] && !localFilter && !sampled
  }

  /** What the guard is for: a filter applied afterwards would see the first row instead of the first row that
      passes it. Of 1 and 2 only 2 passes; the first row is 1, and none is left. */
  lemma FilterAfterwardsLosesRows(view: View<real>)
    requires forall x: real :: view(x) == [Some(x)]
    ensures var keys := [Key(0, false, false)];
      && FirstRows(keys, view, multiset{1.0, 2.0}, 1, multiset{1.0})
      && !SendsClause(keys, true, false)
      && Result(keys, view, multiset{2.0}, 0, 1, [2.0])
      && !Result(keys, view, multiset{2.0}, 0, 1, [])
  {
    var keys := [Key(0, false, false)];
    assert view(1.0) == [Some(1.0)] && view(2.0) == [Some(2.0)];
    assert SortOf(keys, view, [1.0, 2.0], multiset{1.0, 2.0});
    assert Slice([1.0, 2.0], 0, 1) == [1.0];
    assert SortOf(keys, view, [2.0], multiset{2.0}) && Slice([2.0], 0, 1) == [2.0];
    forall sorted: seq<real> | SortOf(keys, view, sorted, multiset{2.0}) ensures Slice(sorted, 0, 1) != [] {
      assert |multiset(sorted)| == 1;
    }
  }

  // ----- the whole of it

  /** A row of the table: what Oracle stores, what DuckDB reads, and the ROWID. */
  datatype Row = Row(stored: seq<Stored>, read: seq<Value>, rowid: Value)

  function StoredRow(row: seq<Stored>): (r: SortRow)
    ensures |r| == |row| && forall i :: 0 <= i < |row| ==> r[i] == StoredSortValue(row[i])
  {
    if row == [] then [] else [StoredSortValue(row[0])] + StoredRow(row[1..])
  }

  function ReadRow(row: seq<Value>): (r: SortRow)
    ensures |r| == |row| && forall i :: 0 <= i < |row| ==> r[i] == ReadSortValue(row[i])
  {
    if row == [] then [] else [ReadSortValue(row[0])] + ReadRow(row[1..])
  }

  function OracleView(): View<Row> {
    (row: Row) => StoredRow(row.stored)
  }

  function DuckView(): View<Row> {
    (row: Row) => ReadRow(row.read)
  }

  /** What is read from a row is what its columns read as. */
  ghost predicate ReadsAs(row: Row, columns: seq<ColumnInfo>, conversions: Conversions) {
    && |row.stored| == |row.read| == |columns|
    && forall c :: 0 <= c < |columns| ==>
         Storable(row.stored[c], columns[c]) && ReadValue(row.stored[c], columns[c], conversions) == Some(row.read[c])
  }

  ghost predicate KeysOrderable(keys: seq<Key>, columns: seq<ColumnInfo>) {
    forall i :: 0 <= i < |keys| ==> keys[i].column < |columns| && Orderable(columns[keys[i].column])
  }

  /** By the keys that are sent both engines compare every two rows alike. */
  lemma {:induction false} EnginesCompareAlike(
    keys: seq<Key>, a: Row, b: Row, columns: seq<ColumnInfo>, conversions: Conversions)
    requires KeysOrderable(keys, columns) && ReadsAs(a, columns, conversions) && ReadsAs(b, columns, conversions)
    ensures Compare(keys, StoredRow(a.stored), StoredRow(b.stored)) == Compare(keys, ReadRow(a.read), ReadRow(b.read))
  {
    hide Storable, ReadValue, Orderable, CompareBy;
    if keys != [] {
      var c := keys[0].column;
      OrderableReadsTheSame(a.stored[c], columns[c], a.read[c], conversions);
      OrderableReadsTheSame(b.stored[c], columns[c], b.read[c], conversions);
      EnginesCompareAlike(keys[1..], a, b, columns, conversions);
    }
  }

  lemma SortedForBoth(keys: seq<Key>, sorted: seq<Row>, columns: seq<ColumnInfo>, conversions: Conversions)
    requires KeysOrderable(keys, columns) && Sorted(keys, OracleView(), sorted)
    requires forall row :: row in sorted ==> ReadsAs(row, columns, conversions)
    ensures Sorted(keys, DuckView(), sorted)
  {
    hide KeysOrderable, ReadsAs, Compare;
    forall i, j | 0 <= i < j < |sorted| ensures NotAfter(keys, DuckView(), sorted[i], sorted[j]) {
      assert NotAfter(keys, OracleView(), sorted[i], sorted[j]);
      EnginesCompareAlike(keys, sorted[i], sorted[j], columns, conversions);
    }
  }

  /**
   Top-N pushdown is sound. For any table, any keys that are sent, and whatever first rows Oracle returns by the
   values it stores, sorting them again by the values DuckDB reads and cutting them gives a result the whole
   table has under ORDER BY ... LIMIT ... OFFSET: some sorted order of all its rows has exactly that slice.
   */
  lemma PushedTopNIsAResult(
    keys: seq<Key>, columns: seq<ColumnInfo>, conversions: Conversions, rows: multiset<Row>,
    offset: nat, limit: nat, fetched: multiset<Row>, again: seq<Row>)
    requires KeysOrderable(keys, columns) && forall row :: row in rows ==> ReadsAs(row, columns, conversions)
    requires FirstRows(keys, OracleView(), rows, limit + offset, fetched)
    requires SortOf(keys, DuckView(), again, fetched)
    ensures Result(keys, DuckView(), rows, offset, limit, Slice(again, offset, limit))
  {
    hide KeysOrderable, ReadsAs, Sorted;
    var sorted :| SortOf(keys, OracleView(), sorted, rows) && fetched == multiset(Slice(sorted, 0, limit + offset));
    forall row | row in sorted ensures ReadsAs(row, columns, conversions) {
      assert row in multiset(sorted);
    }
    SortedForBoth(keys, sorted, columns, conversions);
    assert SortOf(keys, DuckView(), sorted, rows);
    CutOfFirstRowsIsAResult(keys, DuckView(), rows, offset, limit, fetched, again);
  }
}
