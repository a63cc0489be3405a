/**
 Splitting a scan's filters into the WHERE clause Oracle is sent and the filters applied to the rows that come
 back (oracle_filter.cpp), so that together they keep the rows the query asked for.
 */
module FilterSplit {
  import opened Protocol
  import opened JsonPaths
  import opened ColumnValues
  import opened SqlText
  import opened FilterTranslation

  // ----- a superset for a test of a JSON path

  /** The text of a constant that only a JSON string can be extracted as. */
  function PlainConstant(e: Expr): Option<string> {
    if e.Literal? && e.constant.Text? && PlainText(e.constant.text) then Some(e.constant.text) else None
  }

  function PlainConstants(children: seq<Expr>): (r: Option<seq<string>>)
    ensures r.Some? ==> |r.value| == |children|
    ensures r.Some? ==> forall i :: 0 <= i < |children| ==> PlainConstant(children[i]) == Some(r.value[i])
  {
    if children == [] then Some([])
    else
      var first := PlainConstant(children[0]);
      var rest := PlainConstants(children[1..]);
      if first.None? || rest.None? then None else Some([first.value] + rest.value)
  }

  /** A predicate Oracle makes true for every row the test is true for; nothing when there is none. */
  function JsonPrefilter(piece: Expr, column: ColumnInfo, name: nat): Option<Sql<Placed>>
    decreases piece
  {
    if column.oracleType != TYPE_JSON then None
    else match piece
      case Comparison(op, left, right) =>
        var path := ExtractedPath(left);
        var text := PlainConstant(right);
        if op != Equal || path.None? || text.None? then None
        else Some(Test(Placed(name, JsonEquals(path.value, text.value))))
      case Conjunction(all, children) =>
        if all then None
        else
          var branches := JsonPrefilters(children, column, name);
          if branches.None? then None else Some(Any(branches.value))
      case NullTest(negated, children) =>
        if !negated || |children| != 1 || ExtractedPath(children[0]).None? then None
        else Some(Test(Placed(name, JsonExists(ExtractedPath(children[0]).value))))
      case In(children) =>
        if !(2 <= |children| <= 1001) || ExtractedPath(children[0]).None? then None
        else
          var texts := PlainConstants(children[1..]);
          if texts.None? then None
          else Some(Test(Placed(name, JsonIn(ExtractedPath(children[0]).value, texts.value))))
      case _ => None
  }

  function JsonPrefilters(children: seq<Expr>, column: ColumnInfo, name: nat): (r: Option<seq<Sql<Placed>>>)
    ensures r.Some? ==> |r.value| == |children|
    ensures r.Some? ==> forall i :: 0 <= i < |children| ==> JsonPrefilter(children[i], column, name) == Some(r.value[i])
    decreases children
  {
    if children == [] then Some([])
    else
      var first := JsonPrefilter(children[0], column, name);
      var rest := JsonPrefilters(children[1..], column, name);
      if first.None? || rest.None? then None else Some([first.value] + rest.value)
  }

  lemma ExtractedAgrees(stored: Stored, column: ColumnInfo, value: Value, path: string, text: string, engines: Engines)
    requires ReadValue(stored, column, engines.conversions) == Some(value)
    requires PlainText(text) && DuckExtracts(value, path, engines) == Some(text)
    ensures OracleScalar(stored, path, engines) == Some(text)
  {
    PlainTextAgrees(value.document, SimplePath(path).value, text, engines.renderings);
  }

  lemma JsonEqualsSound(left: Expr, right: Expr, stored: Stored, column: ColumnInfo, value: Value, engines: Engines)
    requires ReadValue(stored, column, engines.conversions) == Some(value) && (value.JsonValue? || value.NullValue?)
    requires ExtractedPath(left).Some? && PlainConstant(right).Some?
    requires DuckCompares(Equal, DuckValue(left, value, engines), DuckValue(right, value, engines), engines) == True
    ensures TextEquals(OracleScalar(stored, ExtractedPath(left).value, engines), PlainConstant(right).value) == True
  {
    hide PlainText, ReadValue, OracleScalar;
    ExtractedAgrees(stored, column, value, ExtractedPath(left).value, PlainConstant(right).value, engines);
    PlainIsNotEmpty(PlainConstant(right).value);
  }

  lemma PlainIsNotEmpty(text: string)
    requires PlainText(text)
    ensures text != ""
  {
  }

  lemma JsonExistsSound(e: Expr, stored: Stored, column: ColumnInfo, value: Value, engines: Engines)
    requires ReadValue(stored, column, engines.conversions) == Some(value) && (value.JsonValue? || value.NullValue?)
    requires ExtractedPath(e).Some? && !DuckValue(e, value, engines).NullValue?
    ensures OracleTruth(JsonExists(ExtractedPath(e).value), stored, column, engines) == True
  {
    FoundOnce(value.document, SimplePath(ExtractedPath(e).value).value);
  }

  lemma JsonInSound(children: seq<Expr>, texts: seq<string>, stored: Stored, column: ColumnInfo, value: Value,
                    engines: Engines)
    requires ReadValue(stored, column, engines.conversions) == Some(value) && (value.JsonValue? || value.NullValue?)
    requires children != [] && ExtractedPath(children[0]).Some? && PlainConstants(children[1..]) == Some(texts)
    requires AnyOf(DuckEqualities(DuckValue(children[0], value, engines), children[1..], value, engines)) == True
    ensures OracleTruth(JsonIn(ExtractedPath(children[0]).value, texts), stored, column, engines) == True
  {
    hide PlainConstant, DuckCompares, OracleScalar, TextEquals, ReadValue, DuckValue, ExtractedPath, PlainConstants,
         DuckEqualities, TextEqualities, AnyOf;
    var truths := DuckEqualities(DuckValue(children[0], value, engines), children[1..], value, engines);
    var i :| 0 <= i < |truths| && truths[i] == True;
    JsonEqualsSound(children[0], children[1..][i], stored, column, value, engines);
    var equalities := TextEqualities(OracleScalar(stored, ExtractedPath(children[0]).value, engines), texts);
    assert equalities[i] == True;
  }

  lemma JsonColumnReadsJson(stored: Stored, column: ColumnInfo, value: Value, engines: Engines)
    requires column.oracleType == TYPE_JSON && Storable(stored, column)
    requires ReadValue(stored, column, engines.conversions) == Some(value)
    ensures value.JsonValue? || value.NullValue?
  {
  }

  lemma TrueBranch(children: seq<Expr>, value: Value, engines: Engines) returns (i: nat)
    requires AnyOf(DuckTruths(children, value, engines)) == True
    ensures i < |children| && DuckTruth(children[i], value, engines) == True
  {
    hide DuckTruth, DuckTruths, AnyOf;
    var truths := DuckTruths(children, value, engines);
    i :| 0 <= i < |truths| && truths[i] == True;
  }

  lemma AnyBranch(branches: seq<Sql<Placed>>, test: Placed -> Truth, i: nat)
    requires i < |branches| && Meaning(branches[i], test) == True
    ensures Meaning(Any(branches), test) == True
  {
    hide AnyOf, Meanings;
    assert Meanings(branches, test)[i] == True;
  }

  /** Oracle leaves out no row that DuckDB's own test keeps. */
  lemma {:induction false} JsonPrefilterKeeps(
    piece: Expr, name: nat, columns: seq<ColumnInfo>, row: seq<Stored>, value: Value, engines: Engines)
    requires name < |columns| && name < |row| && Storable(row[name], columns[name])
    requires ReadValue(row[name], columns[name], engines.conversions) == Some(value)
    requires JsonPrefilter(piece, columns[name], name).Some?
    requires DuckTruth(piece, value, engines) == True
    ensures Meaning(JsonPrefilter(piece, columns[name], name).value, RowTester(columns, row, engines)) == True
    decreases piece
  {
    hide Storable, ReadValue, DuckCompares, DuckValue, OracleScalar, TextEquals, PlainConstant, ExtractedPath;
    var column, stored := columns[name], row[name];
    JsonColumnReadsJson(stored, column, value, engines);
    match piece
    case Comparison(op, left, right) => JsonEqualsSound(left, right, stored, column, value, engines);
    case Conjunction(all, children) =>
      var i := TrueBranch(children, value, engines);
      JsonPrefilterKeeps(children[i], name, columns, row, value, engines);
      AnyBranch(JsonPrefilters(children, column, name).value, RowTester(columns, row, engines), i);
    case NullTest(negated, children) => JsonExistsSound(children[0], stored, column, value, engines);
    case In(children) =>
      JsonInSound(children, PlainConstants(children[1..]).value, stored, column, value, engines);
  }

  // ----- the split

  /** A filter on one column of the scan's output. */
  datatype Filter = Filter(projection: nat, e: Expr)

  /** A filter on several columns, with the output position of each. */
  datatype MultiColumnFilter = MultiColumnFilter(e: Expr, positions: seq<nat>)

  /** A table, whether each column can be read, the columns scanned (a number past the last column is the
      ROWID), and the key ranges a join's prefix-range filter was narrowed to. */
  datatype Scan = Scan(columns: seq<ColumnInfo>, readable: ColumnInfo -> bool, scanned: seq<nat>,
                       ranges: (Expr, nat) -> Option<Sql<Placed>>)

  datatype Local = OnOne(filter: Filter) | OnSeveral(multi: MultiColumnFilter)

  /** What Oracle is sent, joined with AND, and what is applied to the rows that come back. */
  datatype Split = Split(sent: seq<Sql<Placed>>, local: seq<Local>)

  /** The conjuncts of a filter. */
  function Flatten(e: Expr): seq<Expr>
    decreases e
  {
    if e.Conjunction? && e.all then FlattenAll(e.children) else [e]
  }

  function FlattenAll(children: seq<Expr>): seq<Expr>
    decreases children
  {
    if children == [] then [] else Flatten(children[0]) + FlattenAll(children[1..])
  }

  /** What one conjunct adds; nothing when its column cannot be read. */
  function SplitPiece(piece: Expr, projection: nat, scan: Scan): Option<Split>
    requires projection < |scan.scanned|
  {
    var name := scan.scanned[projection];
    if name >= |scan.columns| then
      Some(Split([], if piece.Optional? then [] else [OnOne(Filter(projection, piece))]))
    else
      var column := scan.columns[name];
      if !scan.readable(column) then None
      else if piece.Optional? then
        if piece.child.None? then Some(Split([], []))
        else if piece.child.value.Call? && scan.ranges(piece.child.value, name).Some? then
          Some(Split([scan.ranges(piece.child.value, name).value], []))
        else
          var hint := Translate(piece.child.value, column, name);
          Some(Split(if hint.Some? then [hint.value] else [], []))
      else
        var sql := Translate(piece, column, name);
        if sql.Some? then Some(Split([sql.value], []))
        else
          var narrowed := JsonPrefilter(piece, column, name);
          Some(Split(if narrowed.Some? then [narrowed.value] else [], [OnOne(Filter(projection, piece))]))
  }

  function Joint(a: Split, b: Split): Split {
    Split(a.sent + b.sent, a.local + b.local)
  }

  /** The conjuncts of one filter, each added to what was taken before it. */
  function TakePieces(taken: Split, pieces: seq<Expr>, projection: nat, scan: Scan): Option<Split>
    requires projection < |scan.scanned|
    decreases |pieces|
  {
    if pieces == [] then Some(taken)
    else
      var piece := SplitPiece(pieces[0], projection, scan);
      if piece.None? then None else TakePieces(Joint(taken, piece.value), pieces[1..], projection, scan)
  }

  function TakeFilter(taken: Split, filter: Filter, scan: Scan): Option<Split> {
    if filter.projection >= |scan.scanned| then None
    else TakePieces(taken, Flatten(filter.e), filter.projection, scan)
  }

  function TakeFilters(taken: Split, filters: seq<Filter>, scan: Scan): Option<Split>
    decreases |filters|
  {
    if filters == [] then Some(taken)
    else
      var first := TakeFilter(taken, filters[0], scan);
      if first.None? then None else TakeFilters(first.value, filters[1..], scan)
  }

  /** The whole split; nothing when a filter is on a column that is not scanned or cannot be read. */
  function SplitOf(multis: seq<MultiColumnFilter>, filters: seq<Filter>, scan: Scan): Option<Split> {
    TakeFilters(Split([], LocalMultis(multis)), filters, scan)
  }

  function LocalMultis(multis: seq<MultiColumnFilter>): (local: seq<Local>)
    ensures |local| == |multis|
    ensures forall i :: 0 <= i < |local| ==> local[i] == OnSeveral(multis[i])
  {
    if multis == [] then [] else [OnSeveral(multis[0])] + LocalMultis(multis[1..])
  }

  /** The loops over the filters and over the conjuncts of each. */
  method SplitFilters(multis: seq<MultiColumnFilter>, filters: seq<Filter>, scan: Scan) returns (split: Option<Split>)
    ensures split == SplitOf(multis, filters, scan)
  {
    hide SplitPiece;
    var result := Split([], []);
    for i := 0 to |multis|
      invariant result.sent == [] && result.local == LocalMultis(multis)[..i]
    {
      result := result.(local := result.local + [OnSeveral(multis[i])]);
    }
    assert result == Split([], LocalMultis(multis)) && filters[0..] == filters;
    for i := 0 to |filters|
      invariant TakeFilters(result, filters[i..], scan) == SplitOf(multis, filters, scan)
    {
      assert filters[i..][1..] == filters[i + 1..];
      if filters[i].projection >= |scan.scanned| {
        return None;
      }
      var taken := AddPieces(result, Flatten(filters[i].e), filters[i].projection, scan);
      if taken.None? {
        return None;
      }
      result := taken.value;
    }
    return Some(result);
  }

  method AddPieces(start: Split, pieces: seq<Expr>, projection: nat, scan: Scan) returns (split: Option<Split>)
    requires projection < |scan.scanned|
    ensures split == TakePieces(start, pieces, projection, scan)
  {
    hide SplitPiece;
    var result := start;
    for i := 0 to |pieces|
      invariant TakePieces(result, pieces[i..], projection, scan) == TakePieces(start, pieces, projection, scan)
    {
      assert pieces[i..][1..] == pieces[i + 1..];
      var piece := SplitPiece(pieces[i], projection, scan);
      if piece.None? {
        return None;
      }
      result := Joint(result, piece.value);
    }
    return Some(result);
  }

  // ----- the rows a split keeps

  /** A row: what each column of the table stores, and what DuckDB reads at each position of the output. */
  datatype Row = Row(stored: seq<Stored>, values: seq<Value>)

  /** The two engines, and the truth of a filter over several positions. */
  datatype World = World(engines: Engines, several: (MultiColumnFilter, seq<Value>) -> Truth)

  ghost predicate Reads(row: Row, scan: Scan, world: World) {
    && |row.stored| == |scan.columns| && |row.values| == |scan.scanned|
    && forall p :: 0 <= p < |scan.scanned| && scan.scanned[p] < |scan.columns| ==>
         && Storable(row.stored[scan.scanned[p]], scan.columns[scan.scanned[p]])
         && ReadValue(row.stored[scan.scanned[p]], scan.columns[scan.scanned[p]], world.engines.conversions)
            == Some(row.values[p])
  }

  /** The key ranges sent for a filter hold of every row the filter is true for. */
  ghost predicate RangesCover(row: Row, scan: Scan, world: World) {
    forall e: Expr, p: nat | p < |scan.scanned| && scan.scanned[p] < |scan.columns| && p < |row.values| ::
      scan.ranges(e, scan.scanned[p]).Some? && DuckTruth(e, row.values[p], world.engines) == True
      ==> Meaning(scan.ranges(e, scan.scanned[p]).value, RowTester(scan.columns, row.stored, world.engines)) == True
  }

  ghost predicate IsTyped(e: Expr, projection: nat, scan: Scan) {
    projection < |scan.scanned| && scan.scanned[projection] < |scan.columns| ==>
      WellTyped(e, scan.columns[scan.scanned[projection]])
  }

  ghost predicate LocalTrue(local: Local, row: Row, world: World) {
    match local
    case OnOne(filter) =>
      filter.projection < |row.values| && DuckTruth(filter.e, row.values[filter.projection], world.engines) == True
    case OnSeveral(multi) => world.several(multi, row.values) == True
  }

  /** Oracle's WHERE clause is true of a row and so is every filter applied to what came back. */
  ghost predicate Keeps(split: Split, row: Row, scan: Scan, world: World) {
    && (forall i :: 0 <= i < |split.sent| ==>
          Meaning(split.sent[i], RowTester(scan.columns, row.stored, world.engines)) == True)
    && (forall i :: 0 <= i < |split.local| ==> LocalTrue(split.local[i], row, world))
  }

  lemma KeepsJoint(a: Split, b: Split, row: Row, scan: Scan, world: World)
    ensures Keeps(Joint(a, b), row, scan, world) <==> Keeps(a, row, scan, world) && Keeps(b, row, scan, world)
  {
    hide LocalTrue, Meaning;
    var joint := Joint(a, b);
    if Keeps(joint, row, scan, world) {
      assert forall i :: 0 <= i < |a.sent| ==> joint.sent[i] == a.sent[i];
      assert forall i :: 0 <= i < |b.sent| ==> joint.sent[|a.sent| + i] == b.sent[i];
      assert forall i :: 0 <= i < |a.local| ==> joint.local[i] == a.local[i];
      assert forall i :: 0 <= i < |b.local| ==> joint.local[|a.local| + i] == b.local[i];
    }
  }

  /** A conjunct that is not a hint is true of a row, or the row is not kept; and what is true of a row does not
      keep it out, hint or not. */
  lemma PieceDecides(piece: Expr, projection: nat, row: Row, scan: Scan, world: World)
    requires projection < |scan.scanned| && Reads(row, scan, world) && RangesCover(row, scan, world)
    requires IsTyped(piece, projection, scan) && SplitPiece(piece, projection, scan).Some?
    ensures DuckTruth(piece, row.values[projection], world.engines) == True
      ==> Keeps(SplitPiece(piece, projection, scan).value, row, scan, world)
    ensures Keeps(SplitPiece(piece, projection, scan).value, row, scan, world) && !piece.Optional?
      ==> DuckTruth(piece, row.values[projection], world.engines) == True
  {
    hide Meaning, DuckTruth, Translate, JsonPrefilter, RowTester, Storable, ReadValue;
    var name, value := scan.scanned[projection], row.values[projection];
    var split := SplitPiece(piece, projection, scan).value;
    if name < |scan.columns| {
      var column := scan.columns[name];
      if piece.Optional? {
        if piece.child.Some? {
          HintDecides(piece.child.value, projection, row, scan, world);
          OptionalTruth(piece, value, world.engines);
        }
      } else if Translate(piece, column, name).Some? {
        TranslationMeansTheSame(piece, name, scan.columns, row.stored, value, world.engines);
        assert split.sent[0] == Translate(piece, column, name).value;
      } else {
        LocalPieceDecides(piece, projection, row, scan, world);
      }
    } else if !piece.Optional? {
      assert split.local[0] == OnOne(Filter(projection, piece));
    }
  }

  lemma OptionalTruth(piece: Expr, value: Value, engines: Engines)
    requires piece.Optional? && piece.child.Some?
    ensures DuckTruth(piece, value, engines) == DuckTruth(piece.child.value, value, engines)
  {
  }

  lemma LocalPieceDecides(piece: Expr, projection: nat, row: Row, scan: Scan, world: World)
    requires projection < |scan.scanned| && Reads(row, scan, world) && scan.scanned[projection] < |scan.columns|
    requires !piece.Optional? && scan.readable(scan.columns[scan.scanned[projection]])
    requires Translate(piece, scan.columns[scan.scanned[projection]], scan.scanned[projection]).None?
    ensures Keeps(SplitPiece(piece, projection, scan).value, row, scan, world)
      <==> DuckTruth(piece, row.values[projection], world.engines) == True
  {
    hide Meaning, DuckTruth, Translate, JsonPrefilter, RowTester, Storable, ReadValue;
    var name, value := scan.scanned[projection], row.values[projection];
    var split := SplitPiece(piece, projection, scan).value;
    assert split.local[0] == OnOne(Filter(projection, piece));
    if DuckTruth(piece, value, world.engines) == True && JsonPrefilter(piece, scan.columns[name], name).Some? {
      JsonPrefilterKeeps(piece, name, scan.columns, row.stored, value, world.engines);
    }
  }

  lemma HintDecides(child: Expr, projection: nat, row: Row, scan: Scan, world: World)
    requires projection < |scan.scanned| && Reads(row, scan, world) && RangesCover(row, scan, world)
    requires scan.scanned[projection] < |scan.columns| && scan.readable(scan.columns[scan.scanned[projection]])
    requires WellTyped(child, scan.columns[scan.scanned[projection]])
    ensures DuckTruth(child, row.values[projection], world.engines) == True
      ==> Keeps(SplitPiece(Optional(Some(child)), projection, scan).value, row, scan, world)
  {
    hide Meaning, DuckTruth, Translate, RowTester, Storable, ReadValue, WellTyped;
    var name, value := scan.scanned[projection], row.values[projection];
    if !(child.Call? && scan.ranges(child, name).Some?) && Translate(child, scan.columns[name], name).Some? {
      TranslationMeansTheSame(child, name, scan.columns, row.stored, value, world.engines);
    }
  }

  // ----- from conjuncts to filters

  ghost predicate AllTrue(pieces: seq<Expr>, value: Value, engines: Engines) {
    forall i :: 0 <= i < |pieces| ==> DuckTruth(pieces[i], value, engines) == True
  }

  /** A filter is true just when all its conjuncts are. */
  lemma {:induction false} FlattenTrue(e: Expr, value: Value, engines: Engines)
    ensures DuckTruth(e, value, engines) == True <==> AllTrue(Flatten(e), value, engines)
    decreases e, 1
  {
    hide DuckCompares, DuckValue, DuckEqualities;
    if e.Conjunction? && e.all {
      FlattenAllTrue(e.children, value, engines);
      var truths := DuckTruths(e.children, value, engines);
      assert AllTrue(e.children, value, engines) <==> forall i :: 0 <= i < |truths| ==> truths[i] == True;
    } else {
      assert Flatten(e)[0] == e;
    }
  }

  lemma {:induction false} FlattenAllTrue(children: seq<Expr>, value: Value, engines: Engines)
    ensures AllTrue(children, value, engines) <==> AllTrue(FlattenAll(children), value, engines)
    decreases children, 0
  {
    hide DuckTruth, Flatten;
    if children != [] {
      FlattenTrue(children[0], value, engines);
      FlattenAllTrue(children[1..], value, engines);
      AllTrueConcat(Flatten(children[0]), FlattenAll(children[1..]), value, engines);
      AllTrueConcat([children[0]], children[1..], value, engines);
      assert children == [children[0]] + children[1..];
      assert AllTrue([children[0]], value, engines) <==> DuckTruth([children[0]][0], value, engines) == True;
    }
  }

  lemma AllTrueConcat(a: seq<Expr>, b: seq<Expr>, value: Value, engines: Engines)
    ensures AllTrue(a + b, value, engines) <==> AllTrue(a, value, engines) && AllTrue(b, value, engines)
  {
    hide DuckTruth;
    assert forall i :: 0 <= i < |a| ==> (a + b)[i] == a[i];
    assert forall i :: 0 <= i < |b| ==> (a + b)[|a| + i] == b[i];
  }

  lemma {:induction false} FlattenTyped(e: Expr, column: ColumnInfo)
    requires WellTyped(e, column)
    ensures forall i :: 0 <= i < |Flatten(e)| ==> WellTyped(Flatten(e)[i], column)
    decreases e, 1
  {
    hide ConstantFits;
    if e.Conjunction? && e.all {
      FlattenAllTyped(e.children, column);
    }
  }

  lemma {:induction false} FlattenAllTyped(children: seq<Expr>, column: ColumnInfo)
    requires forall i :: 0 <= i < |children| ==> WellTyped(children[i], column)
    ensures forall i :: 0 <= i < |FlattenAll(children)| ==> WellTyped(FlattenAll(children)[i], column)
    decreases children, 0
  {
    if children != [] {
      FlattenTyped(children[0], column);
      FlattenAllTyped(children[1..], column);
      hide WellTyped, Flatten;
    }
  }

  /** Every conjunct the query cannot do without is true of a row. */
  ghost predicate RequiredTrue(pieces: seq<Expr>, value: Value, engines: Engines) {
    forall i :: 0 <= i < |pieces| && !pieces[i].Optional? ==> DuckTruth(pieces[i], value, engines) == True
  }

  /** What all filters come to over a row: `wanted` if every one is true, `required` if every conjunct but the
      optional ones is. */
  ghost predicate Decides(before: bool, kept: bool, wanted: bool, required: bool) {
    (before && wanted ==> kept) && (kept ==> before && required)
  }

  lemma {:induction false} PiecesDecide(
    taken: Split, pieces: seq<Expr>, projection: nat, row: Row, scan: Scan, world: World)
    requires projection < |scan.scanned| && Reads(row, scan, world) && RangesCover(row, scan, world)
    requires forall i :: 0 <= i < |pieces| ==> IsTyped(pieces[i], projection, scan)
    requires TakePieces(taken, pieces, projection, scan).Some?
    ensures Decides(
      Keeps(taken, row, scan, world),
      Keeps(TakePieces(taken, pieces, projection, scan).value, row, scan, world),
      AllTrue(pieces, row.values[projection], world.engines),
      RequiredTrue(pieces, row.values[projection], world.engines))
    decreases |pieces|
  {
    hide Keeps, DuckTruth, SplitPiece, RangesCover, IsTyped;
    if pieces != [] {
      var piece := SplitPiece(pieces[0], projection, scan).value;
      PieceDecides(pieces[0], projection, row, scan, world);
      KeepsJoint(taken, piece, row, scan, world);
      PiecesDecide(Joint(taken, piece), pieces[1..], projection, row, scan, world);
    }
  }

  lemma PiecesTyped(filter: Filter, scan: Scan)
    requires IsTyped(filter.e, filter.projection, scan)
    ensures forall i :: 0 <= i < |Flatten(filter.e)| ==> IsTyped(Flatten(filter.e)[i], filter.projection, scan)
  {
    hide WellTyped, Flatten;
    if filter.projection < |scan.scanned| && scan.scanned[filter.projection] < |scan.columns| {
      FlattenTyped(filter.e, scan.columns[scan.scanned[filter.projection]]);
    }
  }

  /** A filter is true of a row. */
  ghost predicate Wanted(filter: Filter, row: Row, world: World) {
    filter.projection < |row.values| && DuckTruth(filter.e, row.values[filter.projection], world.engines) == True
  }

  /** Every conjunct of a filter that the query relies on is true of a row. */
  ghost predicate Required(filter: Filter, row: Row, world: World) {
    && filter.projection < |row.values|
    && RequiredTrue(Flatten(filter.e), row.values[filter.projection], world.engines)
  }

  lemma FilterDecides(taken: Split, filter: Filter, row: Row, scan: Scan, world: World)
    requires Reads(row, scan, world) && RangesCover(row, scan, world)
    requires IsTyped(filter.e, filter.projection, scan) && TakeFilter(taken, filter, scan).Some?
    ensures Decides(
      Keeps(taken, row, scan, world), Keeps(TakeFilter(taken, filter, scan).value, row, scan, world),
      Wanted(filter, row, world), Required(filter, row, world))
  {
    hide Keeps, DuckTruth, TakePieces, RangesCover, WellTyped, Flatten, AllTrue, RequiredTrue, IsTyped;
    PiecesTyped(filter, scan);
    PiecesDecide(taken, Flatten(filter.e), filter.projection, row, scan, world);
    FlattenTrue(filter.e, row.values[filter.projection], world.engines);
  }

  ghost predicate AllWanted(filters: seq<Filter>, row: Row, world: World) {
    forall i :: 0 <= i < |filters| ==> Wanted(filters[i], row, world)
  }

  ghost predicate AllRequired(filters: seq<Filter>, row: Row, world: World) {
    forall i :: 0 <= i < |filters| ==> Required(filters[i], row, world)
  }

  lemma {:induction false} FiltersDecide(taken: Split, filters: seq<Filter>, row: Row, scan: Scan, world: World)
    requires Reads(row, scan, world) && RangesCover(row, scan, world)
    requires forall i :: 0 <= i < |filters| ==> IsTyped(filters[i].e, filters[i].projection, scan)
    requires TakeFilters(taken, filters, scan).Some?
    ensures Decides(
      Keeps(taken, row, scan, world), Keeps(TakeFilters(taken, filters, scan).value, row, scan, world),
      AllWanted(filters, row, world), AllRequired(filters, row, world))
    decreases |filters|
  {
    hide Keeps, Wanted, TakePieces, RangesCover, IsTyped, Required, Reads;
    if filters != [] {
      FilterDecides(taken, filters[0], row, scan, world);
      FiltersDecide(TakeFilter(taken, filters[0], scan).value, filters[1..], row, scan, world);
    }
  }

  /**
   Splitting keeps the answer. Of the rows of the table, the pushed WHERE clause and then the filters applied
   here keep every row that all the filters are true for, and keep no row of which any conjunct is not true,
   the optional ones aside: those are hints, which the query does not rely on.
   */
  lemma SplitKeepsTheAnswer(multis: seq<MultiColumnFilter>, filters: seq<Filter>, row: Row, scan: Scan, world: World)
    requires Reads(row, scan, world) && RangesCover(row, scan, world)
    requires forall i :: 0 <= i < |filters| ==> IsTyped(filters[i].e, filters[i].projection, scan)
    requires SplitOf(multis, filters, scan).Some?
    ensures Decides(
      forall i :: 0 <= i < |multis| ==> world.several(multis[i], row.values) == True,
      Keeps(SplitOf(multis, filters, scan).value, row, scan, world),
      AllWanted(filters, row, world), AllRequired(filters, row, world))
  {
    hide AllWanted, TakeFilters, RangesCover, IsTyped, AllRequired, Reads, DuckTruth;
    var first := Split([], LocalMultis(multis));
    FiltersDecide(first, filters, row, scan, world);
    if Keeps(first, row, scan, world) {
      forall i | 0 <= i < |multis| ensures world.several(multis[i], row.values) == True {
        assert LocalTrue(first.local[i], row, world);
      }
    }
  }

  /** With no optional conjunct the rows kept are exactly the rows wanted. */
  lemma SplitIsExact(multis: seq<MultiColumnFilter>, filters: seq<Filter>, row: Row, scan: Scan, world: World)
    requires Reads(row, scan, world) && RangesCover(row, scan, world)
    requires forall i :: 0 <= i < |filters| ==> IsTyped(filters[i].e, filters[i].projection, scan)
    requires forall i, j :: 0 <= i < |filters| && 0 <= j < |Flatten(filters[i].e)| ==> !Flatten(filters[i].e)[j].Optional?
    requires SplitOf(multis, filters, scan).Some?
    ensures Keeps(SplitOf(multis, filters, scan).value, row, scan, world)
      <==> AllWanted(filters, row, world)
           && forall i :: 0 <= i < |multis| ==> world.several(multis[i], row.values) == True
  {
    hide SplitOf, Keeps, RangesCover, IsTyped, Reads, DuckTruth, Flatten;
    SplitKeepsTheAnswer(multis, filters, row, scan, world);
    if AllRequired(filters, row, world) {
      forall i | 0 <= i < |filters| ensures Wanted(filters[i], row, world) {
        assert Required(filters[i], row, world);
        assert AllTrue(Flatten(filters[i].e), row.values[filters[i].projection], world.engines);
        FlattenTrue(filters[i].e, row.values[filters[i].projection], world.engines);
      }
    }
  }

  // ----- the text

  /** No disjunction of the filter is empty. */
  predicate NoEmptyOr(e: Expr)
    decreases e
  {
    e.Conjunction? && !e.all ==> e.children != [] && forall i :: 0 <= i < |e.children| ==> NoEmptyOr(e.children[i])
  }

  /** A JSON prefilter can be read back if and only if no disjunction in its filter is empty. */
  lemma {:induction false} PrefilterIsPrintable(piece: Expr, column: ColumnInfo, name: nat)
    requires JsonPrefilter(piece, column, name).Some?
    ensures Printable(JsonPrefilter(piece, column, name).value) <==> NoEmptyOr(piece)
    decreases piece
  {
    if piece.Conjunction? {
      var branches := JsonPrefilters(piece.children, column, name).value;
      forall i | 0 <= i < |branches|
        ensures Printable(branches[i]) <==> NoEmptyOr(piece.children[i])
      {
        PrefilterIsPrintable(piece.children[i], column, name);
      }
    }
  }

  /** The translator refuses an empty conjunction; the JSON prefilter sends one, as a pair of parentheses nothing can
      read. Disjunctions come from DuckDB's planner, and nothing in this repository builds one. */
  lemma EmptyOrIsSent(column: ColumnInfo, name: nat)
    requires column.oracleType == TYPE_JSON
    ensures var empty := Conjunction(false, []);
      && Translate(empty, column, name) == None
      && JsonPrefilter(empty, column, name) == Some(Any([]))
      && Printed<Placed>(Any([])) == [LeftParen, RightParen]
  {
    assert Printed<Placed>(Any([])) == [LeftParen] + [] + [RightParen];
  }

  ghost predicate AllSentPrintable(split: Split) {
    AllPrintable(split.sent)
  }

  /** A conjunct narrowed by the JSON prefilter: required, not translated, and of a form the prefilter knows. */
  predicate Narrowed(piece: Expr, projection: nat, scan: Scan)
    requires projection < |scan.scanned|
  {
    var name := scan.scanned[projection];
    && name < |scan.columns|
    && !piece.Optional? && Translate(piece, scan.columns[name], name).None?
    && JsonPrefilter(piece, scan.columns[name], name).Some?
  }

  /** A conjunct for which the key ranges of a join were found. */
  predicate Ranged(piece: Expr, projection: nat, scan: Scan)
    requires projection < |scan.scanned|
  {
    var name := scan.scanned[projection];
    name < |scan.columns| && piece.Optional? && piece.child.Some? && piece.child.value.Call?
    && scan.ranges(piece.child.value, name).Some?
  }

  /** What is sent for a conjunct has no empty disjunction: none is narrowed from, and key ranges are not without a
      term. */
  ghost predicate Readable(piece: Expr, projection: nat, scan: Scan)
    requires projection < |scan.scanned|
  {
    && (Narrowed(piece, projection, scan) ==> NoEmptyOr(piece))
    && (Ranged(piece, projection, scan) ==> Printable(scan.ranges(piece.child.value, scan.scanned[projection]).value))
  }

  lemma PieceIsPrintable(piece: Expr, projection: nat, scan: Scan)
    requires projection < |scan.scanned| && SplitPiece(piece, projection, scan).Some?
    ensures AllSentPrintable(SplitPiece(piece, projection, scan).value) <==> Readable(piece, projection, scan)
  {
    hide Translate, JsonPrefilter, Printable, NoEmptyOr;
    var name := scan.scanned[projection];
    var sent := SplitPiece(piece, projection, scan).value.sent;
    assert |sent| <= 1 && (AllPrintable(sent) <==> sent == [] || Printable(sent[0]));
    if name < |scan.columns| {
      var column := scan.columns[name];
      if piece.Optional? && piece.child.Some? && Translate(piece.child.value, column, name).Some? {
        TranslationIsPrintable(piece.child.value, column, name);
      } else if !piece.Optional? && Translate(piece, column, name).Some? {
        TranslationIsPrintable(piece, column, name);
      } else if !piece.Optional? && JsonPrefilter(piece, column, name).Some? {
        PrefilterIsPrintable(piece, column, name);
      }
    }
  }

  lemma PrintableJoint(a: Split, b: Split)
    ensures AllSentPrintable(Joint(a, b)) <==> AllSentPrintable(a) && AllSentPrintable(b)
  {
    hide Printable;
    var both := a.sent + b.sent;
    assert forall i :: 0 <= i < |a.sent| ==> both[i] == a.sent[i];
    assert forall i :: 0 <= i < |b.sent| ==> both[|a.sent| + i] == b.sent[i];
  }

  ghost predicate AllReadable(pieces: seq<Expr>, projection: nat, scan: Scan) {
    projection < |scan.scanned| && forall i :: 0 <= i < |pieces| ==> Readable(pieces[i], projection, scan)
  }

  lemma {:induction false} PiecesArePrintable(taken: Split, pieces: seq<Expr>, projection: nat, scan: Scan)
    requires projection < |scan.scanned| && TakePieces(taken, pieces, projection, scan).Some?
    ensures AllSentPrintable(TakePieces(taken, pieces, projection, scan).value)
      <==> AllSentPrintable(taken) && AllReadable(pieces, projection, scan)
    decreases |pieces|
  {
    hide SplitPiece, Readable, AllSentPrintable, Joint;
    if pieces != [] {
      var piece := SplitPiece(pieces[0], projection, scan).value;
      PieceIsPrintable(pieces[0], projection, scan);
      PrintableJoint(taken, piece);
      PiecesArePrintable(Joint(taken, piece), pieces[1..], projection, scan);
      assert forall i :: 1 <= i < |pieces| ==> pieces[i] == pieces[1..][i - 1];
    }
  }

  /** What is sent for a filter has no empty disjunction. */
  ghost predicate FilterReadable(filter: Filter, scan: Scan) {
    AllReadable(Flatten(filter.e), filter.projection, scan)
  }

  lemma {:induction false} FiltersArePrintable(taken: Split, filters: seq<Filter>, scan: Scan)
    requires TakeFilters(taken, filters, scan).Some?
    ensures AllSentPrintable(TakeFilters(taken, filters, scan).value)
      <==> AllSentPrintable(taken) && forall i :: 0 <= i < |filters| ==> FilterReadable(filters[i], scan)
    decreases |filters|
  {
    hide AllSentPrintable, AllReadable, Flatten, TakePieces;
    if filters != [] {
      PiecesArePrintable(taken, Flatten(filters[0].e), filters[0].projection, scan);
      FiltersArePrintable(TakeFilter(taken, filters[0], scan).value, filters[1..], scan);
      assert forall i :: 1 <= i < |filters| ==> filters[i] == filters[1..][i - 1];
    }
  }

  /** The text of the WHERE clause, read with AND binding tighter than OR, is the conjunction of the predicates that
      were meant, every disjunction in it standing in parentheses of its own, if and only if no conjunct that reaches
      the JSON prefilter holds an empty disjunction and no key ranges are without a term; else it cannot be read. */
  lemma SentTextMeansTheSplit(multis: seq<MultiColumnFilter>, filters: seq<Filter>, scan: Scan, test: Placed -> Truth)
    requires SplitOf(multis, filters, scan).Some? && SplitOf(multis, filters, scan).value.sent != []
    ensures var sent := SplitOf(multis, filters, scan).value.sent;
      ReadExpression(Joined(sent, AndWord), test)
      == if forall i :: 0 <= i < |filters| ==> FilterReadable(filters[i], scan)
         then Some(Reading(AllOf(Meanings(sent, test)), [])) else None
  {
    hide Printable, FilterReadable, TakeFilters, Joined, ReadExpression, Meanings, AllOf;
    FiltersArePrintable(Split([], LocalMultis(multis)), filters, scan);
    WhereReads(SplitOf(multis, filters, scan).value.sent, test);
  }
}
