/**
 A scan that is sent both its filters and the first rows of an order (oracle_query.cpp): when the guard lets the
 clause go, the rows that come back give a result of the query as it was written.
 */
module TopNScan {
  import opened Protocol
  import opened ColumnValues
  import opened SqlText
  import opened FilterTranslation
  import TopN
  import opened FilterSplit

  /** A row as the scan returns it: the columns scanned, and the ROWID where none of them is named. */
  function Scanned(row: TopN.Row, scan: Scan): FilterSplit.Row {
    FilterSplit.Row(row.stored, seq(|scan.scanned|, p requires 0 <= p < |scan.scanned| =>
      if scan.scanned[p] < |row.read| then row.read[scan.scanned[p]] else row.rowid))
  }

  /** The WHERE clause sent is true of a row. */
  ghost predicate UnderWhere(split: Split, row: TopN.Row, scan: Scan, world: World) {
    forall i :: 0 <= i < |split.sent| ==>
      Meaning(split.sent[i], RowTester(scan.columns, row.stored, world.engines)) == True
  }

  /** Every filter of the query is true of a row. */
  ghost predicate Answers(
    multis: seq<MultiColumnFilter>, filters: seq<Filter>, row: TopN.Row, scan: Scan, world: World) {
    && AllWanted(filters, Scanned(row, scan), world)
    && forall i :: 0 <= i < |multis| ==> world.several(multis[i], Scanned(row, scan).values) == True
  }

  /** Every conjunct the query relies on is true of a row; the optional ones may not be. */
  ghost predicate Required(
    multis: seq<MultiColumnFilter>, filters: seq<Filter>, row: TopN.Row, scan: Scan, world: World) {
    && AllRequired(filters, Scanned(row, scan), world)
    && forall i :: 0 <= i < |multis| ==> world.several(multis[i], Scanned(row, scan).values) == True
  }

  /** What is known of a scan before the first row is read. */
  ghost predicate Planned(multis: seq<MultiColumnFilter>, filters: seq<Filter>, scan: Scan) {
    && SplitOf(multis, filters, scan).Some?
    && forall i :: 0 <= i < |filters| ==> IsTyped(filters[i].e, filters[i].projection, scan)
  }

  ghost predicate NoneOptional(filters: seq<Filter>) {
    forall i, j :: 0 <= i < |filters| && 0 <= j < |Flatten(filters[i].e)| ==> !Flatten(filters[i].e)[j].Optional?
  }

  /** What is read of each row, and of the ranges a join's filter was narrowed to. */
  ghost predicate ReadOf(table: multiset<TopN.Row>, scan: Scan, world: World) {
    forall row :: row in table ==> ReadAsStored(row, scan, world)
  }

  ghost predicate ReadAsStored(row: TopN.Row, scan: Scan, world: World) {
    TopN.ReadsAs(row, scan.columns, world.engines.conversions) && RangesCover(Scanned(row, scan), scan, world)
  }

  lemma ScannedReads(row: TopN.Row, scan: Scan, world: World)
    requires ReadAsStored(row, scan, world)
    ensures Reads(Scanned(row, scan), scan, world)
  {
    hide RangesCover, Storable, ReadValue;
  }

  /** With no filter left here, Oracle's WHERE clause is true of every row wanted and of none that is not required;
      and of exactly the rows wanted when no conjunct is optional. */
  lemma WhereIsTheFilter(
    multis: seq<MultiColumnFilter>, filters: seq<Filter>, row: TopN.Row, scan: Scan, world: World)
    requires Planned(multis, filters, scan) && SplitOf(multis, filters, scan).value.local == []
    requires ReadAsStored(row, scan, world)
    ensures var sent := UnderWhere(SplitOf(multis, filters, scan).value, row, scan, world);
      && (Answers(multis, filters, row, scan, world) ==> sent)
      && (sent ==> Required(multis, filters, row, scan, world))
      && (NoneOptional(filters) && sent ==> Answers(multis, filters, row, scan, world))
  {
    hide SplitOf, RangesCover, Reads, AllWanted, AllRequired, IsTyped, Flatten, Meaning, TopN.ReadsAs;
    ScannedReads(row, scan, world) by { hide Scanned; }
    SplitKeepsTheAnswer(multis, filters, Scanned(row, scan), scan, world);
    if NoneOptional(filters) {
      SplitIsExact(multis, filters, Scanned(row, scan), scan, world);
    }
  }

  /** A bag of the rows of a table that a test is true of, each as often as in the table. */
  ghost predicate PartOf(part: multiset<TopN.Row>, table: multiset<TopN.Row>, test: TopN.Row -> bool) {
    forall row: TopN.Row :: part[row] == if row in table && test(row) then table[row] else 0
  }

  /**
   A Top-N behind filters. When the guard lets the clause go, no filter is left here and no sample is taken.
   Whatever first rows Oracle returns of those its WHERE clause is true of, sorting them again by the values DuckDB
   reads and cutting them gives a result that the rows under the clause have by ORDER BY ... LIMIT ... OFFSET; and
   those are all the rows the query's filters are true of and, unless a conjunct is optional, no others.
   */
  lemma SentTopNIsAResult(
    multis: seq<MultiColumnFilter>, filters: seq<Filter>, scan: Scan, world: World, keys: seq<TopN.Key>, sampled: bool,
    table: multiset<TopN.Row>, under: multiset<TopN.Row>, wanted: multiset<TopN.Row>, required: multiset<TopN.Row>,
    offset: nat, limit: nat, fetched: multiset<TopN.Row>, again: seq<TopN.Row>)
    requires Planned(multis, filters, scan) && ReadOf(table, scan, world)
    requires TopN.SendsClause(keys, SplitOf(multis, filters, scan).value.local != [], sampled)
    requires TopN.KeysOrderable(keys, scan.columns)
    requires !sampled ==>
      PartOf(under, table, (row: TopN.Row) => UnderWhere(SplitOf(multis, filters, scan).value, row, scan, world))
    requires PartOf(wanted, table, (row: TopN.Row) => Answers(multis, filters, row, scan, world))
    requires PartOf(required, table, (row: TopN.Row) => Required(multis, filters, row, scan, world))
    requires TopN.FirstRows(keys, TopN.OracleView(), under, limit + offset, fetched)
    requires TopN.SortOf(keys, TopN.DuckView(), again, fetched)
    ensures TopN.Result(keys, TopN.DuckView(), under, offset, limit, TopN.Slice(again, offset, limit))
    ensures wanted <= under <= required
    ensures NoneOptional(filters) ==> under == wanted
  {
    hide Planned, SplitOf, UnderWhere, Answers, Required, NoneOptional, ReadAsStored;
    hide TopN.KeysOrderable, TopN.FirstRows, TopN.SortOf, TopN.Result;
    forall row: TopN.Row
      ensures wanted[row] <= under[row] <= required[row] && (NoneOptional(filters) ==> under[row] == wanted[row])
    {
      if row in table {
        WhereIsTheFilter(multis, filters, row, scan, world);
      }
    }
    forall row | row in under ensures TopN.ReadsAs(row, scan.columns, world.engines.conversions) {
      ReadOfRow(row, scan, world);
    }
    TopN.PushedTopNIsAResult(keys, scan.columns, world.engines.conversions, under, offset, limit, fetched, again);
  }

  lemma ReadOfRow(row: TopN.Row, scan: Scan, world: World)
    requires ReadAsStored(row, scan, world)
    ensures TopN.ReadsAs(row, scan.columns, world.engines.conversions)
  {
  }
}
