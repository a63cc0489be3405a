/**
 What every reachable state of the decoder keeps: the batch counter is the size of the reconstructed
 rows, every row and the batch are within their limits, and zero-width columns are NULL.
 */
module FetchBudget {
  import opened ByteBuffer
  import opened FetchDecoder
  import opened FetchMessages
  import opened Protocol
  import opened RowFormat

  function BatchBytes(rows: seq<Row>): nat {
    if rows == [] then 0 else BatchBytes(rows[..|rows| - 1]) + RowBytes(rows[|rows| - 1])
  }

  lemma BatchBytesAppend(rows: seq<Row>, row: Row)
    ensures BatchBytes(rows + [row]) == BatchBytes(rows) + RowBytes(row)
  {
    assert (rows + [row])[..|rows|] == rows;
  }

  ghost predicate NullWhereOmitted(columns: seq<Column>, row: Row) {
    |row| == |columns| && forall c :: 0 <= c < |columns| && columns[c].omitted ==> row[c] == None
  }

  ghost predicate GoodRow(ctx: Context, row: Row) {
    && |row| == |ctx.columns|
    && RowBytes(row) <= ctx.limits.maximumRowBytes
    && (ctx.PrecedingNull() ==> NullWhereOmitted(ctx.columns, row))
  }

  ghost predicate GoodRows(ctx: Context, rows: seq<Row>, batchBytes: nat) {
    && batchBytes == BatchBytes(rows) <= ctx.limits.maximumBatchBytes
    && |rows| <= ctx.limits.maximumRows
    && forall i :: 0 <= i < |rows| ==> GoodRow(ctx, rows[i])
  }

  ghost predicate GoodSelection(ctx: Context, selection: Option<seq<nat>>) {
    selection.Some? ==> Increasing(selection.value) && Within(selection.value, |ctx.columns|)
  }

  ghost predicate GoodKept(ctx: Context, kept: Kept) {
    GoodRows(ctx, kept.rows, kept.batchBytes)
  }

  ghost predicate GoodPass(ctx: Context, pass: Pass) {
    && GoodRows(ctx, pass.rows, pass.batchBytes)
    && GoodSelection(ctx, pass.pending)
    && GoodKept(ctx, pass.kept)
  }

  // ----- the size counted before a merge is the size of the merged row

  function Base(ctx: Context, previous: Option<Row>): Row {
    if previous.Some? then previous.value else NullRow(|ctx.columns|)
  }

  lemma MergedCellIs(ctx: Context, values: seq<Cell>, selected: seq<nat>, previous: Option<Row>, column: nat, changed: nat)
    requires |values| == |selected| && Increasing(selected) && Within(selected, |ctx.columns|)
    requires previous.Some? ==> |previous.value| == |ctx.columns|
    requires column < |ctx.columns| && CountsBelow(selected, column, changed)
    ensures var (cell, next) := MergedCell(values, selected, previous, column, changed);
      && cell == Overlay(Base(ctx, previous), selected, values)[column]
      && CountsBelow(selected, column + 1, next)
  {
    OverlayAt(Base(ctx, previous), selected, values, column);
    if changed == |selected| || selected[changed] != column {
      NotSelected(selected, column, changed);
    }
  }

  lemma {:induction false} RowCostIsMerged(ctx: Context, values: seq<Cell>, selected: seq<nat>, previous: Option<Row>,
                                           merged: Row, column: nat, changed: nat)
    requires |values| == |selected| && Increasing(selected) && Within(selected, |ctx.columns|)
    requires previous.Some? ==> |previous.value| == |ctx.columns|
    requires merged == Overlay(Base(ctx, previous), selected, values)
    requires column <= |ctx.columns| && CountsBelow(selected, column, changed)
    requires RowBytes(merged[..column]) <= ctx.limits.maximumRowBytes
    ensures RowCost(ctx, values, selected, previous, column, changed, RowBytes(merged[..column]))
         == if RowBytes(merged) <= ctx.limits.maximumRowBytes then Ok((RowBytes(merged), |selected|)) else Err(LimitExceeded)
    decreases |ctx.columns| - column
  {
    hide Overlay, MergedCell, RowBytes;
    if column == |ctx.columns| {
      assert merged[..column] == merged;
    } else {
      assert merged[..column + 1] == merged[..column] + [merged[column]];
      RowBytesAppend(merged[..column], merged[column]);
      RowBytesPrefix(merged, column + 1);
      MergedCellIs(ctx, values, selected, previous, column, changed);
      if CellBytes(merged[column]) <= ctx.limits.maximumRowBytes - RowBytes(merged[..column]) {
        RowCostIsMerged(ctx, values, selected, previous, merged, column + 1,
          MergedCell(values, selected, previous, column, changed).1);
      }
    }
  }

  lemma NotSelected(selected: seq<nat>, column: nat, changed: nat)
    requires Increasing(selected) && changed <= |selected|
    requires forall i :: 0 <= i < changed ==> selected[i] < column
    requires changed < |selected| ==> column < selected[changed]
    ensures column !in selected
  {
  }

  lemma RowCostFromStart(ctx: Context, values: seq<Cell>, selected: seq<nat>, previous: Option<Row>, merged: Row)
    requires |values| == |selected| && Increasing(selected) && Within(selected, |ctx.columns|)
    requires previous.Some? ==> |previous.value| == |ctx.columns|
    requires merged == Overlay(Base(ctx, previous), selected, values)
    ensures RowCost(ctx, values, selected, previous, 0, 0, 0)
         == if RowBytes(merged) <= ctx.limits.maximumRowBytes then Ok((RowBytes(merged), |selected|)) else Err(LimitExceeded)
  {
    assert merged[..0] == [] && RowBytes([]) == 0;
    hide Overlay, RowCost, RowBytes;
    RowCostIsMerged(ctx, values, selected, previous, merged, 0, 0);
  }

  /** A row is accounted for exactly when it fits, and then by its size once merged. */
  lemma AccountedIsMerged(ctx: Context, rows: nat, batchBytes: nat, values: seq<Cell>, selected: seq<nat>, previous: Option<Row>, merged: Row)
    requires |values| == |selected| && Increasing(selected) && Within(selected, |ctx.columns|)
    requires previous.Some? ==> |previous.value| == |ctx.columns|
    requires merged == Overlay(Base(ctx, previous), selected, values)
    ensures AccountRow(ctx, rows, batchBytes, values, selected, previous)
         == if RowBytes(merged) <= ctx.limits.maximumRowBytes && rows < ctx.limits.maximumRows
               && batchBytes + RowBytes(merged) <= ctx.limits.maximumBatchBytes
            then Ok(batchBytes + RowBytes(merged)) else Err(LimitExceeded)
  {
    hide Overlay, RowCost, RowBytes;
    RowCostFromStart(ctx, values, selected, previous, merged);
  }

  // ----- zero-width columns

  lemma OmittedStayNull(columns: seq<Column>, base: Row, selected: seq<nat>, values: seq<Cell>)
    requires NullWhereOmitted(columns, base)
    requires Increasing(selected) && Within(selected, |columns|)
    requires Carrying(columns, selected).Ok? && |values| == |Carrying(columns, selected).value|
    ensures NullWhereOmitted(columns, Overlay(base, Carrying(columns, selected).value, values))
  {
    var wire := Carrying(columns, selected).value;
    CarryingColumns(columns, selected, |columns|);
    forall c | 0 <= c < |columns| && columns[c].omitted
      ensures Overlay(base, wire, values)[c] == None
    {
      CarriedUnlessOmitted(columns, selected, c);
      OverlayAt(base, wire, values, c);
    }
  }

  lemma WireColumnsGood(ctx: Context, selection: Option<seq<nat>>)
    requires GoodSelection(ctx, selection)
    ensures WireColumns(ctx.columns, selection).Ok?
    ensures Increasing(WireColumns(ctx.columns, selection).value)
  {
    CarryingColumns(ctx.columns, if selection.Some? then selection.value else FirstColumns(|ctx.columns|), |ctx.columns|);
  }

  // ----- every step keeps it

  lemma GoodPrevious(ctx: Context, rows: seq<Row>, batchBytes: nat)
    requires ctx.Accepted() && GoodRows(ctx, rows, batchBytes)
    ensures Previous(ctx, rows).Some? ==>
      && |Previous(ctx, rows).value| == |ctx.columns|
      && (ctx.PrecedingNull() ==> NullWhereOmitted(ctx.columns, Previous(ctx, rows).value))
  {
  }

  /** A row merged from good parts is good, and so is the batch with it. */
  lemma MergedRowGood(ctx: Context, rows: seq<Row>, batchBytes: nat, previous: Option<Row>, selection: seq<nat>, values: seq<Cell>)
    requires ctx.Accepted() && GoodRows(ctx, rows, batchBytes)
    requires previous.None? || previous == Previous(ctx, rows)
    requires Increasing(selection) && Within(selection, |ctx.columns|)
    requires Carrying(ctx.columns, selection).Ok? && |values| == |Carrying(ctx.columns, selection).value|
    requires previous.Some? ==> |previous.value| == |ctx.columns|
    ensures var wire := Carrying(ctx.columns, selection).value;
      var merged := Overlay(Base(ctx, previous), wire, values);
      var cost := AccountRow(ctx, |rows|, batchBytes, values, wire, previous);
      cost.Ok? ==> GoodRows(ctx, rows + [merged], cost.value)
  {
    hide AccountRow, Overlay, Carrying, RowBytes, BatchBytes;
    var wire := Carrying(ctx.columns, selection).value;
    CarryingColumns(ctx.columns, selection, |ctx.columns|);
    var merged := Overlay(Base(ctx, previous), wire, values);
    AccountedIsMerged(ctx, |rows|, batchBytes, values, wire, previous, merged);
    GoodPrevious(ctx, rows, batchBytes);
    BatchBytesAppend(rows, merged);
    if ctx.PrecedingNull() {
      OmittedStayNull(ctx.columns, Base(ctx, previous), selection, values);
    }
  }

  lemma RowStepGood(ctx: Context, message: Bytes, pass: Pass)
    requires ctx.Accepted() && GoodPass(ctx, pass) && pass.offset < |message|
    ensures RowStep(ctx, message, pass).Ok? ==> GoodPass(ctx, RowStep(ctx, message, pass).value)
  {
    hide AccountRow, RowDataAt, Overlay, Carrying, RowBytes, BatchBytes;
    WireColumnsGood(ctx, pass.pending);
    var wire := WireColumns(ctx.columns, pass.pending).value;
    var values := RowValuesAt(ctx, message, pass.offset, wire);
    if values.Got? {
      var selection := if pass.pending.Some? then pass.pending.value else FirstColumns(|ctx.columns|);
      var previous := if pass.pending.Some? then Previous(ctx, pass.rows) else None;
      GoodPrevious(ctx, pass.rows, pass.batchBytes);
      MergedRowGood(ctx, pass.rows, pass.batchBytes, previous, selection, values.value);
    }
  }

  lemma ContinuationStepGood(ctx: Context, message: Bytes, pass: Pass)
    requires ctx.Accepted() && GoodPass(ctx, pass) && pass.offset < |message|
    ensures ContinuationStep(ctx, message, pass).Ok? ==> GoodPass(ctx, ContinuationStep(ctx, message, pass).value)
  {
    hide AccountRow, RowDataAt, Overlay, Carrying, RowBytes, BatchBytes, ContinuationAt;
    var changed := ContinuationAt(message, pass.offset, |ctx.columns|);
    if changed.Got? {
      WireColumnsGood(ctx, Some(changed.value));
      var wire := WireColumns(ctx.columns, Some(changed.value)).value;
      var values := RowDataAt(message, changed.next, wire, ctx.columns, ctx.limits);
      if values.Got? {
        GoodPrevious(ctx, pass.rows, pass.batchBytes);
        MergedRowGood(ctx, pass.rows, pass.batchBytes, Previous(ctx, pass.rows), changed.value, values.value);
      }
    }
  }

  lemma StepGood(ctx: Context, message: Bytes, pass: Pass)
    requires ctx.Accepted() && GoodPass(ctx, pass) && pass.offset < |message|
    ensures Step(ctx, message, pass).Ok? ==> GoodPass(ctx, Step(ctx, message, pass).value)
  {
    hide RowHeaderAt, ErrorAt, ParameterAt, StatusAt, PiggybackAt, RowStep, ContinuationStep, GoodRows;
    RowStepGood(ctx, message, pass);
    ContinuationStepGood(ctx, message, pass);
  }

  lemma {:induction false} RunGood(ctx: Context, message: Bytes, pass: Pass)
    requires ctx.Accepted() && GoodPass(ctx, pass)
    ensures GoodKept(ctx, Run(ctx, message, pass).KeptState())
    ensures Run(ctx, message, pass).Finished? ==> GoodPass(ctx, Run(ctx, message, pass).pass)
    decreases |message| - pass.offset
  {
    hide Step, GoodRows;
    if pass.offset < |message| && !pass.completed {
      StepGood(ctx, message, pass);
      var next := Step(ctx, message, pass);
      if next.Ok? {
        RunGood(ctx, message, next.value);
      }
    }
  }

  /** Main result. After any calls with any messages, the rows a decoder hands over or keeps are within
      the row, batch and row-count limits, the counter is their size, and when the row before the response
      is NULL in the zero-width columns so is every row. */
  lemma {:induction false} EveryCallKeepsBudget(ctx: Context, messages: seq<Bytes>, message: Bytes, kept: Kept)
    requires ctx.Accepted() && GoodKept(ctx, kept)
    ensures GoodKept(ctx, Fed(ctx, messages, kept))
    ensures var outcome := DecodeCall(ctx, message, Fed(ctx, messages, kept));
      && GoodKept(ctx, outcome.KeptState())
      && (outcome.Finished? ==> GoodPass(ctx, outcome.pass))
    decreases |messages|
  {
    hide Run, GoodRows, PrecedingFits;
    if messages == [] {
      RunGood(ctx, message, Resumed(kept));
    } else {
      RunGood(ctx, messages[0], Resumed(kept));
      EveryCallKeepsBudget(ctx, messages[1..], message, DecodeCall(ctx, messages[0], kept).KeptState());
    }
  }

  lemma NothingKeptIsGood(ctx: Context)
    requires ctx.Accepted()
    ensures GoodKept(ctx, NOTHING_KEPT)
  {
  }

  /** The same, from a fresh decoder. */
  lemma FreshDecoderKeepsBudget(ctx: Context, messages: seq<Bytes>, message: Bytes)
    requires ctx.Accepted()
    ensures var outcome := DecodeCall(ctx, message, Fed(ctx, messages, NOTHING_KEPT));
      && GoodRows(ctx, outcome.KeptState().rows, outcome.KeptState().batchBytes)
      && (outcome.Finished? ==> GoodRows(ctx, outcome.pass.rows, outcome.pass.batchBytes))
  {
    NothingKeptIsGood(ctx);
    EveryCallKeepsBudget(ctx, messages, message, NOTHING_KEPT);
  }
}
