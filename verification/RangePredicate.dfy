/**
 The key ranges of a join filter as a predicate of the WHERE clause (oracle_filter.cpp): what the terms that were
 found mean for a stored number, and that they leave out no row the filter is true of.
 */
module RangePredicate {
  import opened Arithmetic
  import opened Protocol
  import opened ColumnValues
  import opened SqlText
  import opened FilterTranslation
  import S = FilterSplit
  import R = RangeSearch

  // ----- the terms as tests

  function Literals(values: seq<int64>): (literals: seq<OracleLiteral>)
    ensures |literals| == |values|
    ensures forall i :: 0 <= i < |values| ==> literals[i] == NumberLiteral(values[i] as real)
  {
    if values == [] then [] else [NumberLiteral(values[0] as real)] + Literals(values[1..])
  }

  function TestOf(term: R.Term): ColumnTest {
    match term
    case Equal(value) => Compares(Op.Equal, NumberLiteral(value as real))
    case InList(values) => InList(Literals(values))
    case Between(low, high) => Within(NumberLiteral(low as real), NumberLiteral(high as real))
  }

  function TestsOf(terms: seq<R.Term>, name: nat): (tests: seq<Sql<Placed>>)
    ensures |tests| == |terms|
    ensures forall i :: 0 <= i < |terms| ==> tests[i] == Test(Placed(name, TestOf(terms[i])))
  {
    if terms == [] then [] else [Test(Placed(name, TestOf(terms[0])))] + TestsOf(terms[1..], name)
  }

  /** A single term as it is, several in parentheses with OR between them. */
  function RangesSql(terms: seq<R.Term>, name: nat): Sql<Placed> {
    if |terms| == 1 then Test(Placed(name, TestOf(terms[0]))) else Any(TestsOf(terms, name))
  }

  /** The predicate can be read back if and only if it has a term; with a key to be found it has. */
  lemma RangesArePrintable(terms: seq<R.Term>, keys: set<int>, name: nat)
    ensures Printable(RangesSql(terms, name)) <==> terms != []
    ensures R.SoundTerms(terms, keys) && keys != {} ==> Printable(RangesSql(terms, name))
  {
    var tests := TestsOf(terms, name);
    assert forall i :: 0 <= i < |tests| ==> Printable(tests[i]);
  }

  // ----- what they mean

  /** Oracle finds a term true of a whole number just when the term selects it. */
  lemma TermMeans(term: R.Term, x: int, column: ColumnInfo, engines: Engines)
    ensures OracleTruth(TestOf(term), StoredNumber(x as real), column, engines) == True <==> term.Selects(x)
  {
    if term.InList? {
      var stored := StoredNumber(x as real);
      var truths := OracleEqualities(stored, column, Literals(term.values), engines);
      forall i | 0 <= i < |truths| ensures truths[i] == True <==> term.values[i] == x {
        assert truths[i] == OracleCompares(Op.Equal, stored, column, Literals(term.values)[i], engines);
      }
    }
  }

  /** And one of several just when one of them selects it. */
  lemma RangesMean(terms: seq<R.Term>, name: nat, x: int, columns: seq<ColumnInfo>, row: seq<Stored>, engines: Engines)
    requires name < |columns| && name < |row| && row[name] == StoredNumber(x as real)
    ensures Meaning(RangesSql(terms, name), RowTester(columns, row, engines)) == True <==> R.SelectedBy(terms, x)
  {
    var test := RowTester(columns, row, engines);
    forall i | 0 <= i < |terms|
      ensures Meaning(TestsOf(terms, name)[i], test) == True <==> terms[i].Selects(x)
    {
      TermMeans(terms[i], x, columns[name], engines);
    }
    hide OracleTruth, TestOf;
    if |terms| == 1 {
      assert TestsOf(terms, name)[0] == RangesSql(terms, name);
    } else {
      assert Meaning(RangesSql(terms, name), test) == AnyOf(Meanings(TestsOf(terms, name), test));
    }
  }

  // ----- what the split needs of them

  /** A column whose numbers DuckDB reads as they are. */
  predicate NumericKey(column: ColumnInfo) {
    column.oracleType == TYPE_NUMBER && !RoundsOnRead(column) && !MapNumber(column).ToText?
  }

  /** The predicate sent for a filter was found by a search over a set of keys, and only rows that hold one of them
      make the filter true. */
  ghost predicate Searched(e: Expr, name: nat, scan: S.Scan, world: S.World, terms: seq<R.Term>, keys: set<int>) {
    && name < |scan.columns| && NumericKey(scan.columns[name])
    && scan.ranges(e, name) == Some(RangesSql(terms, name)) && R.SoundTerms(terms, keys)
    && forall value :: DuckTruth(e, value, world.engines) == True ==> IsKey(value, keys)
  }

  ghost predicate IsKey(value: Value, keys: set<int>) {
    exists key :: key in keys && value == NumberValue(key as real)
  }

  ghost predicate AllSearched(scan: S.Scan, world: S.World) {
    forall e: Expr, name: nat :: scan.ranges(e, name).Some? ==>
      exists terms, keys :: Searched(e, name, scan, world, terms, keys)
  }

  /** A number read from such a column is the number stored. */
  lemma KeyIsStored(stored: Stored, column: ColumnInfo, key: int, engines: Engines)
    requires NumericKey(column) && Storable(stored, column)
    requires ReadValue(stored, column, engines.conversions) == Some(NumberValue(key as real))
    ensures stored == StoredNumber(key as real)
  {
    hide MapNumber, Fits, ReadNumber;
    if stored.StoredNumber? {
      ReadsExactly(stored, column, engines.conversions);
    }
  }

  /** Ranges that were searched for hold of every row the filter is true of: the premise of the split. */
  lemma SearchedRangesCover(row: S.Row, scan: S.Scan, world: S.World)
    requires S.Reads(row, scan, world) && AllSearched(scan, world)
    ensures S.RangesCover(row, scan, world)
  {
    hide OracleTruth, RangesSql, NumericKey, Storable, ReadValue, DuckTruth, R.SelectedBy;
    forall e: Expr, p: nat | p < |scan.scanned| && scan.scanned[p] < |scan.columns| && p < |row.values|
      && scan.ranges(e, scan.scanned[p]).Some? && DuckTruth(e, row.values[p], world.engines) == True
      ensures Meaning(scan.ranges(e, scan.scanned[p]).value, RowTester(scan.columns, row.stored, world.engines)) == True
    {
      var name := scan.scanned[p];
      var terms, keys :| Searched(e, name, scan, world, terms, keys);
      assert IsKey(row.values[p], keys);
      var key :| key in keys && row.values[p] == NumberValue(key as real);
      KeyIsStored(row.stored[name], scan.columns[name], key, world.engines);
      RangesMean(terms, name, key, scan.columns, row.stored, world.engines);
    }
  }
}
