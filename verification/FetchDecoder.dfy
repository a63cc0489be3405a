/**
 The resumable decoder of a fetch response. Each call is given the whole response received so far and
 decodes it from the last row it kept; everything after that row is decided again.
 */
module FetchDecoder {
  import opened ByteBuffer
  import opened FetchMessages
  import opened Protocol
  import opened RowFormat

  const MAX_MESSAGE_BYTES := 64 * 1024 * 1024
  const NO_DATA_FOUND := 1403

  /** What a decoder is made with. */
  datatype Context = Context(columns: seq<Column>, limits: Limits, version: nat, preceding: Option<Row>) {
    /** Holds of every context the constructor does not refuse. */
    ghost predicate Accepted() {
      && 0 < |columns| <= 4096
      && 0 < limits.maximumRowBytes <= limits.maximumBatchBytes
      && 0 < limits.maximumRows
      && (preceding.Some? ==> |preceding.value| == |columns|)
    }

    /** The row before the response, when there is one, is NULL in every zero-width column. */
    ghost predicate PrecedingNull() {
      preceding.Some? ==>
        && |preceding.value| == |columns|
        && forall c :: 0 <= c < |columns| && columns[c].omitted ==> preceding.value[c] == None
    }
  }

  /** What is kept between calls: the rows before `offset`, and the batch budget they used. */
  datatype Kept = Kept(offset: nat, rows: seq<Row>, batchBytes: nat, usedHeader: bool, usedContinuation: bool)

  const NOTHING_KEPT := Kept(0, [], 0, false, false)

  /** Where one call stands between two messages of the response. */
  datatype Pass = Pass(
    offset: nat, rows: seq<Row>, batchBytes: nat, usedHeader: bool, usedContinuation: bool,
    pending: Option<seq<nat>>, completion: Option<ErrorInfo>, exhausted: bool, completed: bool, kept: Kept)

  datatype Outcome = Finished(pass: Pass) | Threw(kind: ErrorKind, kept: Kept) {
    function KeptState(): Kept {
      match this
      case Finished(pass) => pass.kept
      case Threw(_, kept) => kept
    }
  }

  function Resumed(kept: Kept): Pass {
    Pass(kept.offset, kept.rows, kept.batchBytes, kept.usedHeader, kept.usedContinuation, None, None, false, false, kept)
  }

  /** The row that a selection or a continuation changes. */
  function Previous(ctx: Context, rows: seq<Row>): Option<Row> {
    if rows != [] then Some(rows[|rows| - 1]) else ctx.preceding
  }

  // ----- the row and batch budgets

  /** The value a column will have in the merged row, and how many changed values come before the next. */
  function MergedCell(values: seq<Cell>, selected: seq<nat>, previous: Option<Row>, column: nat, changed: nat): (Cell, nat)
    requires |values| == |selected| && changed <= |selected|
    requires previous.Some? ==> column < |previous.value|
  {
    if changed < |selected| && selected[changed] == column then (values[changed], changed + 1)
    else (if previous.Some? then previous.value[column] else None, changed)
  }

  /** The size of the merged row, counted column by column before any value is copied. */
  function RowCost(ctx: Context, values: seq<Cell>, selected: seq<nat>, previous: Option<Row>, column: nat, changed: nat, stored: nat): (r: Result<(nat, nat)>)
    requires |values| == |selected| && changed <= |selected|
    requires previous.Some? ==> |previous.value| == |ctx.columns|
    requires column <= |ctx.columns| && stored <= ctx.limits.maximumRowBytes
    ensures r.Ok? ==> r.value.0 <= ctx.limits.maximumRowBytes
    decreases |ctx.columns| - column
  {
    if column == |ctx.columns| then Ok((stored, changed))
    else
      var (cell, next) := MergedCell(values, selected, previous, column, changed);
      if CellBytes(cell) > ctx.limits.maximumRowBytes - stored then Err(LimitExceeded)
      else RowCost(ctx, values, selected, previous, column + 1, next, stored + CellBytes(cell))
  }

  /** The batch budget used once the row is added. */
  function AccountRow(ctx: Context, rows: nat, batchBytes: nat, values: seq<Cell>, selected: seq<nat>, previous: Option<Row>): (r: Result<nat>)
    ensures r.Ok? ==> |values| == |selected| && (previous.Some? ==> |previous.value| == |ctx.columns|)
  {
    if |values| != |selected| || (previous.Some? && |previous.value| != |ctx.columns|) then Err(Malformed)
    else
      var cost :- RowCost(ctx, values, selected, previous, 0, 0, 0);
      if cost.1 != |selected| then Err(Malformed)
      else if rows >= ctx.limits.maximumRows || cost.0 > ctx.limits.maximumBatchBytes - batchBytes then Err(LimitExceeded)
      else Ok(batchBytes + cost.0)
  }

  /** A decoded row joins the batch; unless a row header is still waiting, decoding can resume after it. */
  function KeepRow(pass: Pass, row: Row): Pass {
    var rows := pass.rows + [row];
    if pass.pending.Some? then pass.(rows := rows)
    else pass.(rows := rows, kept := Kept(pass.offset, rows, pass.batchBytes, pass.usedHeader, pass.usedContinuation))
  }

  // ----- one message

  function HeaderStep(ctx: Context, message: Bytes, pass: Pass): (r: Result<Pass>)
    ensures r.Ok? ==> pass.offset < r.value.offset <= |message|
  {
    match RowHeaderAt(message, pass.offset, |ctx.columns|)
    case Failed(kind) => Err(kind)
    case Got(selection, next) => Ok(pass.(offset := next, pending := selection))
  }

  /** The values of a row; when no column carries bytes, the message byte is all there is. */
  function RowValuesAt(ctx: Context, message: Bytes, pos: nat, wire: seq<nat>): (r: Read<seq<Cell>>)
    ensures r.Got? && pos < |message| ==> pos < r.next <= |message|
  {
    if wire == [] then Got([], pos + 1) else RowDataAt(message, pos, wire, ctx.columns, ctx.limits)
  }

  function RowStep(ctx: Context, message: Bytes, pass: Pass): (r: Result<Pass>)
    requires pass.offset < |message|
    ensures r.Ok? ==> pass.offset < r.value.offset <= |message|
  {
    var wire :- WireColumns(ctx.columns, pass.pending);
    match RowValuesAt(ctx, message, pass.offset, wire)
    case Failed(kind) => Err(kind)
    case Got(values, next) =>
      if pass.pending.Some? then
        var previous := Previous(ctx, pass.rows);
        if previous.None? then Err(Malformed)
        else
          var batchBytes :- AccountRow(ctx, |pass.rows|, pass.batchBytes, values, wire, previous);
          Ok(KeepRow(pass.(offset := next, batchBytes := batchBytes, usedHeader := true, pending := None),
            Overlay(previous.value, wire, values)))
      else
        var batchBytes :- AccountRow(ctx, |pass.rows|, pass.batchBytes, values, wire, None);
        Ok(KeepRow(pass.(offset := next, batchBytes := batchBytes), Overlay(NullRow(|ctx.columns|), wire, values)))
  }

  function ContinuationStep(ctx: Context, message: Bytes, pass: Pass): (r: Result<Pass>)
    ensures r.Ok? ==> pass.offset < r.value.offset <= |message|
  {
    var previous := Previous(ctx, pass.rows);
    if previous.None? then Err(Malformed)
    else
      match ContinuationAt(message, pass.offset, |ctx.columns|)
      case Failed(kind) => Err(kind)
      case Got(changed, start) =>
        var wire :- WireColumns(ctx.columns, Some(changed));
        match RowDataAt(message, start, wire, ctx.columns, ctx.limits)
        case Failed(kind) => Err(kind)
        case Got(values, next) =>
          var batchBytes :- AccountRow(ctx, |pass.rows|, pass.batchBytes, values, wire, previous);
          Ok(KeepRow(pass.(offset := next, batchBytes := batchBytes, usedContinuation := true),
            Overlay(previous.value, wire, values)))
  }

  /** An end-of-call. One that says neither that rows are exhausted nor an error ends the response only
      when nothing follows it. */
  function ErrorStep(ctx: Context, message: Bytes, pass: Pass): (r: Result<Pass>)
    ensures r.Ok? ==> pass.offset < r.value.offset <= |message|
  {
    match ErrorAt(message, pass.offset, ctx.version)
    case Failed(kind) => Err(kind)
    case Got(info, next) =>
      var exhausted := info.number == NO_DATA_FOUND;
      if info.number != 0 && !exhausted then Err(InvalidState)
      else
        Ok(pass.(offset := next, completion := Some(info), exhausted := exhausted,
          completed := exhausted || next == |message|))
  }

  function SkipStep(skipped: Read<()>, pass: Pass, completed: bool): Result<Pass> {
    match skipped
    case Failed(kind) => Err(kind)
    case Got(_, next) => Ok(pass.(offset := next, completed := completed))
  }

  function Step(ctx: Context, message: Bytes, pass: Pass): (r: Result<Pass>)
    requires pass.offset < |message|
    ensures r.Ok? ==> pass.offset < r.value.offset <= |message|
  {
    var kind := message[pass.offset];
    if kind == MESSAGE_ROW_HEADER then HeaderStep(ctx, message, pass)
    else if kind == MESSAGE_ROW_DATA then RowStep(ctx, message, pass)
    else if kind == MESSAGE_ROW_CONTINUATION then ContinuationStep(ctx, message, pass)
    else if kind == MESSAGE_PARAMETER then SkipStep(ParameterAt(message, pass.offset), pass, pass.completed)
    else if kind == MESSAGE_ERROR then ErrorStep(ctx, message, pass)
    else if kind == MESSAGE_STATUS then SkipStep(StatusAt(message, pass.offset), pass, true)
    else if kind == MESSAGE_END_OF_REQUEST then Ok(pass.(offset := pass.offset + 1, completed := true))
    else if kind == MESSAGE_SERVER_PIGGYBACK then SkipStep(PiggybackAt(message, pass.offset), pass, pass.completed)
    else Err(Malformed)
  }

  // ----- one call

  function Run(ctx: Context, message: Bytes, pass: Pass): Outcome
    decreases |message| - pass.offset
  {
    if pass.offset >= |message| || pass.completed then Finished(pass)
    else
      match Step(ctx, message, pass)
      case Err(kind) => Threw(kind, pass.kept)
      case Ok(next) => Run(ctx, message, next)
  }

  /** Whether the row before this response fits a row by itself; it is checked until a row is kept. */
  function PrecedingFits(ctx: Context, kept: Kept): Result<nat> {
    if ctx.preceding.Some? && kept.offset == 0 then
      AccountRow(ctx, |kept.rows|, kept.batchBytes, [], [], ctx.preceding)
    else Ok(kept.batchBytes)
  }

  /** The outcome of one call: where its pass ended, or the error it threw and what was kept by then. */
  function DecodeCall(ctx: Context, message: Bytes, kept: Kept): Outcome {
    if |message| > MAX_MESSAGE_BYTES then Threw(LimitExceeded, kept)
    else if |message| < kept.offset then Threw(InvalidState, kept)
    else
      match PrecedingFits(ctx, kept)
      case Err(kind) => Threw(kind, kept)
      case Ok(_) => Run(ctx, message, Resumed(kept))
  }

  /** What is kept after calls with each of these messages in turn. */
  function Fed(ctx: Context, messages: seq<Bytes>, kept: Kept): Kept {
    if messages == [] then kept else Fed(ctx, messages[1..], DecodeCall(ctx, messages[0], kept).KeptState())
  }

  // ----- the decoder object

  class LobPrefetchFetchResponseDecoder {
    const ctx: Context
    var rows: seq<Row>
    var lastRow: Option<Row>
    var completion: Option<ErrorInfo>
    var exhausted: bool
    var completed: bool
    var usedRowHeaderSelection: bool
    var usedRowContinuation: bool
    var bytesConsumed: nat
    var resumeOffset: nat
    var keptRows: nat
    var keptBatchBytes: nat
    var keptRowHeaderSelection: bool
    var keptRowContinuation: bool
    // The locals of one call that its closures share.
    var offset: nat
    var storedBatchBytes: nat
    var pendingColumns: Option<seq<nat>>

    ghost predicate Valid()
      reads this
    {
      keptRows <= |rows|
    }

    ghost function KeptState(): Kept
      reads this
      requires Valid()
    {
      Kept(resumeOffset, rows[..keptRows], keptBatchBytes, keptRowHeaderSelection, keptRowContinuation)
    }

    ghost function State(): Pass
      reads this
      requires Valid()
    {
      Pass(offset, rows, storedBatchBytes, usedRowHeaderSelection, usedRowContinuation, pendingColumns, completion,
        exhausted, completed, KeptState())
    }

    /** A handler did what `step` says, and threw where it says so, with what was kept unchanged. */
    twostate predicate Did(new step: Result<Pass>, new r: Result<()>)
      requires old(Valid())
      reads this
    {
      && Valid()
      && match step
         case Ok(next) => r.Ok? && State() == next
         case Err(kind) => r == Err(kind) && KeptState() == old(KeptState())
    }

    constructor (ctx: Context)
      requires ctx.Accepted()
      ensures Valid() && this.ctx == ctx && KeptState() == NOTHING_KEPT
    {
      this.ctx := ctx;
      rows, lastRow, completion, exhausted, completed := [], None, None, false, false;
      usedRowHeaderSelection, usedRowContinuation, bytesConsumed := false, false, 0;
      resumeOffset, keptRows, keptBatchBytes, keptRowHeaderSelection, keptRowContinuation := 0, 0, 0, false, false;
      offset, storedBatchBytes, pendingColumns := 0, 0, None;
    }

    method PreviousRow() returns (previous: Option<Row>)
      ensures previous == Previous(ctx, rows)
    {
      if rows != [] {
        return Some(rows[|rows| - 1]);
      }
      return ctx.preceding;
    }

    /** Adds a row's size to the batch budget. */
    method Account(values: seq<Cell>, selected: seq<nat>, previous: Option<Row>) returns (r: Result<()>)
      requires Valid()
      modifies this`storedBatchBytes
      ensures match AccountRow(ctx, |rows|, old(storedBatchBytes), values, selected, previous)
              case Ok(batchBytes) => r.Ok? && storedBatchBytes == batchBytes
              case Err(kind) => r == Err(kind)
    {
      if |values| != |selected| || (previous.Some? && |previous.value| != |ctx.columns|) {
        return Err(Malformed);
      }
      var storedRowBytes: nat, changed: nat := 0, 0;
      for column := 0 to |ctx.columns|
        invariant changed <= |selected| && storedRowBytes <= ctx.limits.maximumRowBytes
        invariant storedBatchBytes == old(storedBatchBytes)
        invariant RowCost(ctx, values, selected, previous, 0, 0, 0)
               == RowCost(ctx, values, selected, previous, column, changed, storedRowBytes)
      {
        var value: Cell := if previous.Some? then previous.value[column] else None;
        if changed < |selected| && selected[changed] == column {
          value := values[changed];
          changed := changed + 1;
        }
        if value.Some? {
          if |value.value| > ctx.limits.maximumRowBytes - storedRowBytes {
            return Err(LimitExceeded);
          }
          storedRowBytes := storedRowBytes + |value.value|;
        }
      }
      if changed != |selected| {
        return Err(Malformed);
      }
      if |rows| >= ctx.limits.maximumRows || storedRowBytes > ctx.limits.maximumBatchBytes - storedBatchBytes {
        return Err(LimitExceeded);
      }
      storedBatchBytes := storedBatchBytes + storedRowBytes;
      return Ok(());
    }

    method AddRow(row: Row)
      requires Valid()
      modifies this
      ensures Valid() && State() == KeepRow(old(State()), row)
    {
      ghost var kept := KeptState();
      rows := rows + [row];
      assert KeptState() == kept by {
        assert rows[..keptRows] == kept.rows;
      }
      if pendingColumns.None? {
        resumeOffset := offset;
        keptRows := |rows|;
        keptBatchBytes := storedBatchBytes;
        keptRowHeaderSelection := usedRowHeaderSelection;
        keptRowContinuation := usedRowContinuation;
        assert KeptState().rows == rows;
      }
    }

    method TakeHeader(message: Bytes) returns (r: Result<()>)
      requires Valid() && offset < |message|
      modifies this
      ensures Did(HeaderStep(ctx, message, old(State())), r)
    {
      var header := DecodeRowHeaderPrefix(message, offset, |ctx.columns|);
      if header.Failed? {
        return Err(header.kind);
      }
      offset := header.next;
      pendingColumns := header.value;
      return Ok(());
    }

    /** The values of the row that stands here. */
    method RowValues(message: Bytes, wire: seq<nat>) returns (r: Read<seq<Cell>>)
      ensures r == RowValuesAt(ctx, message, offset, wire)
    {
      hide RowDataAt;
      if wire == [] {
        return Got([], offset + 1);
      }
      r := DecodePrefetchedRow(message, offset, wire, ctx.columns, ctx.limits);
    }

    /** A row that carries a value, or its absence, for every column. */
    method AddWhole(values: seq<Cell>, wire: seq<nat>) returns (r: Result<()>)
      requires Valid() && Within(wire, |ctx.columns|)
      modifies this
      ensures Did(var batchBytes :- AccountRow(ctx, old(|rows|), old(storedBatchBytes), values, wire, None);
                  Ok(KeepRow(old(State()).(batchBytes := batchBytes), Overlay(NullRow(|ctx.columns|), wire, values))), r)
    {
      hide AccountRow, Overlay, KeepRow, NullRow;
      var _ :- Account(values, wire, None);
      var expanded := ExpandWireRow(|ctx.columns|, wire, values);
      AddRow(expanded.value);
      return Ok(());
    }

    /** A row whose values are those of the columns the header before it selected. */
    method AddSelected(values: seq<Cell>, wire: seq<nat>) returns (r: Result<()>)
      requires Valid() && Within(wire, |ctx.columns|)
      modifies this
      ensures Previous(ctx, old(rows)).None? ==> Did(Err(Malformed), r)
      ensures Previous(ctx, old(rows)).Some? ==>
        Did(var previous := Previous(ctx, old(rows));
            var batchBytes :- AccountRow(ctx, old(|rows|), old(storedBatchBytes), values, wire, previous);
            Ok(KeepRow(old(State()).(batchBytes := batchBytes, usedHeader := true, pending := None),
              Overlay(previous.value, wire, values))), r)
    {
      hide AccountRow, Overlay, KeepRow;
      var previous := PreviousRow();
      if previous.None? {
        return Err(Malformed);
      }
      var _ :- Account(values, wire, previous);
      var merged := MergeChangedColumns(previous.value, wire, values, |ctx.columns|);
      usedRowHeaderSelection := true;
      pendingColumns := None;
      AddRow(merged.value);
      return Ok(());
    }

    method TakeRow(message: Bytes) returns (r: Result<()>)
      requires Valid() && offset < |message|
      modifies this
      ensures Did(RowStep(ctx, message, old(State())), r)
    {
      hide RowValuesAt, AccountRow, Carrying, Overlay, KeepRow, NullRow;
      var wire :- WireCarryingColumns(ctx.columns, pendingColumns);
      var row := RowValues(message, wire);
      if row.Failed? {
        return Err(row.kind);
      }
      offset := row.next;
      if pendingColumns.Some? {
        r := AddSelected(row.value, wire);
      } else {
        r := AddWhole(row.value, wire);
      }
    }

    method TakeContinuation(message: Bytes) returns (r: Result<()>)
      requires Valid() && offset < |message|
      modifies this
      ensures Did(ContinuationStep(ctx, message, old(State())), r)
    {
      hide RowDataAt, AccountRow, Carrying, Overlay, ContinuationAt, KeepRow;
      var previous := PreviousRow();
      if previous.None? {
        return Err(Malformed);
      }
      var continuation := DecodeRowContinuationPrefix(message, offset, |ctx.columns|);
      if continuation.Failed? {
        return Err(continuation.kind);
      }
      var wire :- WireCarryingColumns(ctx.columns, Some(continuation.value));
      var partial := DecodePrefetchedRow(message, continuation.next, wire, ctx.columns, ctx.limits);
      if partial.Failed? {
        return Err(partial.kind);
      }
      offset := partial.next;
      var _ :- Account(partial.value, wire, previous);
      var merged := MergeChangedColumns(previous.value, wire, partial.value, |ctx.columns|);
      usedRowContinuation := true;
      AddRow(merged.value);
      return Ok(());
    }

    method TakeError(message: Bytes) returns (r: Result<()>)
      requires Valid() && offset < |message|
      modifies this
      ensures Did(ErrorStep(ctx, message, old(State())), r)
    {
      hide ErrorAt;
      var info := ErrorAt(message, offset, ctx.version);
      if info.Failed? {
        return Err(info.kind);
      }
      exhausted := info.value.number == NO_DATA_FOUND;
      completion := Some(info.value);
      if info.value.number != 0 && !exhausted {
        return Err(InvalidState);
      }
      var remaining := |message| - offset;
      var consumed := info.next - offset;
      offset := info.next;
      completed := exhausted || consumed == remaining;
      return Ok(());
    }

    method TakeSkipped(skipped: Read<()>, completes: bool) returns (r: Result<()>)
      requires Valid()
      modifies this
      ensures Did(SkipStep(skipped, old(State()), completes), r)
    {
      if skipped.Failed? {
        return Err(skipped.kind);
      }
      offset := skipped.next;
      completed := completes;
      return Ok(());
    }

    method TakeMessage(message: Bytes) returns (r: Result<()>)
      requires Valid() && offset < |message|
      modifies this
      ensures Did(Step(ctx, message, old(State())), r)
    {
      hide HeaderStep, RowStep, ContinuationStep, ErrorStep, SkipStep, ParameterAt, StatusAt, PiggybackAt;
      var kind := message[offset];
      if kind == MESSAGE_ROW_HEADER {
        r := TakeHeader(message);
      } else if kind == MESSAGE_ROW_DATA {
        r := TakeRow(message);
      } else if kind == MESSAGE_ROW_CONTINUATION {
        r := TakeContinuation(message);
      } else if kind == MESSAGE_PARAMETER {
        r := TakeSkipped(ParameterAt(message, offset), completed);
      } else if kind == MESSAGE_ERROR {
        r := TakeError(message);
      } else if kind == MESSAGE_STATUS {
        r := TakeSkipped(StatusAt(message, offset), true);
      } else if kind == MESSAGE_END_OF_REQUEST {
        offset := offset + 1;
        completed := true;
        r := Ok(());
      } else if kind == MESSAGE_SERVER_PIGGYBACK {
        r := TakeSkipped(PiggybackAt(message, offset), completed);
      } else {
        r := Err(Malformed);
      }
    }

    /** True once the response is complete. A call that throws keeps what it kept. */
    method Decode(message: Bytes) returns (r: Result<bool>)
      requires Valid() && ctx.Accepted()
      modifies this
      ensures Valid()
      ensures match DecodeCall(ctx, message, old(KeptState()))
              case Finished(pass) => r == Ok(pass.completed) && State() == pass && bytesConsumed == pass.offset
              case Threw(kind, kept) => r == Err(kind) && KeptState() == kept
    {
      hide Step, AccountRow;
      if |message| > MAX_MESSAGE_BYTES {
        return Err(LimitExceeded);
      }
      if |message| < resumeOffset {
        return Err(InvalidState);
      }
      StartPass();
      if ctx.preceding.Some? && resumeOffset == 0 {
        var _ :- Account([], [], ctx.preceding);
        storedBatchBytes := keptBatchBytes;
      }
      ghost var start := State();
      while offset < |message| && !completed
        invariant Valid()
        invariant Run(ctx, message, start) == Run(ctx, message, State())
        decreases |message| - offset
      {
        var _ :- TakeMessage(message);
      }
      bytesConsumed := offset;
      return Ok(completed);
    }

    /** Drops everything after the last kept row. */
    method StartPass()
      requires Valid()
      modifies this
      ensures Valid() && State() == Resumed(old(KeptState()))
    {
      ghost var kept := KeptState();
      rows := rows[..keptRows];
      assert rows[..keptRows] == kept.rows;
      usedRowHeaderSelection := keptRowHeaderSelection;
      usedRowContinuation := keptRowContinuation;
      completion := None;
      exhausted := false;
      completed := false;
      storedBatchBytes := keptBatchBytes;
      pendingColumns := None;
      offset := resumeOffset;
      assert KeptState() == kept;
    }

    /** Hands the rows over, with the row a following response continues from. */
    method Take() returns (taken: seq<Row>, last: Option<Row>)
      requires Valid()
      modifies this
      ensures taken == old(rows)
      ensures last == Previous(ctx, old(rows)) && lastRow == last
    {
      last := PreviousRow();
      lastRow := last;
      taken := rows;
    }
  }
}
