/** Decoding undoes the server's row compression, over whole responses and chains of responses. */
module FetchRoundTrip {
  import opened ByteBuffer
  import opened FetchBudget
  import opened FetchDecoder
  import opened FetchDelta
  import opened FetchMessages
  import opened MessagePlaces
  import opened Protocol
  import opened RowFormat

  /** How the server chooses to send one row. A partial form names the columns it sends. */
  datatype Form =
    | FullRow
    | HeaderThenFullRow(header: HeaderFields)
    | HeaderSelectedRow(header: HeaderFields, columns: seq<nat>)
    | ClassicContinuation(columns: seq<nat>)
    | UniversalContinuation(columns: seq<nat>)
  {
    predicate Partial() {
      HeaderSelectedRow? || ClassicContinuation? || UniversalContinuation?
    }

    predicate HasHeader() {
      HeaderThenFullRow? || HeaderSelectedRow?
    }
  }

  /** A form the server may use for a row after another: a partial one needs a row before it, and names at
      least every column that changed. */
  ghost predicate GoodForm(ctx: Context, form: Form, previous: Option<Row>, row: Row) {
    && (form.HasHeader() ==> form.header.Valid())
    && (form.Partial() ==>
          && previous.Some? && |previous.value| == |row| == |ctx.columns|
          && Increasing(form.columns) && Within(form.columns, |ctx.columns|)
          && forall c :: 0 <= c < |row| && c !in form.columns ==> row[c] == previous.value[c])
    && (form.UniversalContinuation? ==> !TakenForClassic(form.columns, |ctx.columns|))
  }

  ghost predicate GoodRowFor(ctx: Context, row: Row) {
    GoodCells(row, ctx.columns, ctx.limits) && RowBytes(row) <= ctx.limits.maximumRowBytes
  }

  function FormColumns(ctx: Context, form: Form): seq<nat> {
    if form.Partial() then form.columns else FirstColumns(|ctx.columns|)
  }

  /** The columns that carry bytes, of those a form sends. */
  ghost function FormWire(ctx: Context, form: Form): (wire: seq<nat>)
    requires form.Partial() ==> Increasing(form.columns) && Within(form.columns, |ctx.columns|)
    ensures Carrying(ctx.columns, FormColumns(ctx, form)) == Ok(wire)
    ensures Increasing(wire) && Within(wire, |ctx.columns|)
  {
    CarryingColumns(ctx.columns, FormColumns(ctx, form), |ctx.columns|);
    Carrying(ctx.columns, FormColumns(ctx, form)).value
  }

  ghost function LeadBytes(ctx: Context, form: Form): Bytes
    requires form.Partial() ==> |form.columns| < 0x1_0000
  {
    match form
    case FullRow => []
    case HeaderThenFullRow(header) => HeaderBytes(header, |ctx.columns|, None)
    case HeaderSelectedRow(header, columns) => HeaderBytes(header, |ctx.columns|, Some(columns))
    case ClassicContinuation(columns) => ClassicBytes(columns, |ctx.columns|)
    case UniversalContinuation(columns) => UniversalBytes(columns, |ctx.columns|)
  }

  ghost predicate Writable(ctx: Context, form: Form, row: Row) {
    && |row| == |ctx.columns| <= 4096
    && (form.Partial() ==> Increasing(form.columns) && Within(form.columns, |ctx.columns|) && |form.columns| <= |ctx.columns|)
  }

  /** One row as the server sends it. */
  ghost function WrittenRow(ctx: Context, form: Form, row: Row): Bytes
    requires Writable(ctx, form, row)
  {
    LeadBytes(ctx, form) + RowDataBytes(ctx.columns, row, FormWire(ctx, form))
  }

  lemma GoodFormWritable(ctx: Context, form: Form, previous: Option<Row>, row: Row)
    requires ctx.Accepted() && GoodForm(ctx, form, previous, row) && GoodRowFor(ctx, row)
    ensures Writable(ctx, form, row)
  {
    if form.Partial() {
      IncreasingLength(form.columns, |ctx.columns|);
    }
  }

  // ----- one row

  /** The values sent, laid over what they are relative to, are the row. */
  lemma MergedIsRow(ctx: Context, form: Form, previous: Option<Row>, row: Row)
    requires ctx.Accepted() && GoodForm(ctx, form, previous, row) && GoodRowFor(ctx, row)
    requires form.Partial() ==> NullWhereOmitted(ctx.columns, previous.value)
    ensures var base := if form.Partial() then previous.value else NullRow(|ctx.columns|);
      Overlay(base, FormWire(ctx, form), WireValues(row, FormWire(ctx, form))) == row
  {
    hide Overlay, Carrying, GoodCell;
    var wire := FormWire(ctx, form);
    var base := if form.Partial() then previous.value else NullRow(|ctx.columns|);
    var merged := Overlay(base, wire, WireValues(row, wire));
    forall c | 0 <= c < |row|
      ensures merged[c] == row[c]
    {
      OverlayAt(base, wire, WireValues(row, wire), c);
      assert !form.Partial() ==> FormColumns(ctx, form)[c] == c;
      CarriedUnlessOmitted(ctx.columns, FormColumns(ctx, form), c);
      if c in wire {
        var i :| 0 <= i < |wire| && wire[i] == c;
      } else if ctx.columns[c].omitted {
        OmittedIsNull(ctx, row, c);
      }
    }
  }

  lemma OmittedIsNull(ctx: Context, row: Row, column: nat)
    requires GoodCells(row, ctx.columns, ctx.limits) && column < |row| && ctx.columns[column].omitted
    ensures row[column] == None
  {
  }

  /** The state after a row that was accounted for. */
  function After(pass: Pass, offset: nat, row: Row, form: Form): Pass {
    var kept := KeepRow(pass.(offset := offset, batchBytes := pass.batchBytes + RowBytes(row), pending := None,
      usedHeader := pass.usedHeader || form.HeaderSelectedRow?,
      usedContinuation := pass.usedContinuation || form.ClassicContinuation? || form.UniversalContinuation?), row);
    kept
  }

  ghost predicate Room(ctx: Context, pass: Pass, row: Row) {
    && pass.batchBytes + RowBytes(row) <= ctx.limits.maximumBatchBytes
    && |pass.rows| < ctx.limits.maximumRows
  }

  lemma RowDataDecodes(ctx: Context, message: Bytes, pass: Pass, form: Form, row: Row)
    requires ctx.Accepted() && GoodRowFor(ctx, row) && Room(ctx, pass, row)
    requires !form.ClassicContinuation? && !form.UniversalContinuation?
    requires GoodForm(ctx, form, Previous(ctx, pass.rows), row)
    requires form.Partial() ==> NullWhereOmitted(ctx.columns, Previous(ctx, pass.rows).value)
    requires pass.pending == if form.Partial() then Some(form.columns) else None
    requires Holds(message, pass.offset, RowDataBytes(ctx.columns, row, FormWire(ctx, form)))
    ensures pass.offset < |message| && message[pass.offset] == MESSAGE_ROW_DATA
    ensures RowStep(ctx, message, pass)
         == Ok(After(pass, pass.offset + |RowDataBytes(ctx.columns, row, FormWire(ctx, form))|, row, form))
  {
    hide AccountRow, RowDataAt, Overlay, Carrying, RowBytes, GoodCell, ValueBytes, WireValues;
    var wire := FormWire(ctx, form);
    var previous := if form.Partial() then Previous(ctx, pass.rows) else None;
    RowDataRoundTrip(message, pass.offset, ctx.columns, ctx.limits, row, wire);
    NoValueBytes(ctx.columns, row, wire);
    MergedIsRow(ctx, form, Previous(ctx, pass.rows), row);
    AccountedIsMerged(ctx, |pass.rows|, pass.batchBytes, WireValues(row, wire), wire, previous, row);
  }

  lemma NoValueBytes(columns: seq<Column>, row: Row, wire: seq<nat>)
    requires Within(wire, |row|) && |row| == |columns|
    ensures wire == [] ==> |RowDataBytes(columns, row, wire)| == 1 && WireValues(row, wire) == []
  {
  }

  lemma ContinuationDecodes(ctx: Context, message: Bytes, pass: Pass, form: Form, row: Row)
    requires ctx.Accepted() && GoodRowFor(ctx, row) && Room(ctx, pass, row)
    requires form.ClassicContinuation? || form.UniversalContinuation?
    requires pass.pending == None
    requires GoodForm(ctx, form, Previous(ctx, pass.rows), row) && Writable(ctx, form, row)
    requires NullWhereOmitted(ctx.columns, Previous(ctx, pass.rows).value)
    requires Holds(message, pass.offset, WrittenRow(ctx, form, row))
    ensures pass.offset < |message| && message[pass.offset] == MESSAGE_ROW_CONTINUATION
    ensures ContinuationStep(ctx, message, pass) == Ok(After(pass, pass.offset + |WrittenRow(ctx, form, row)|, row, form))
  {
    hide AccountRow, RowDataAt, Overlay, Carrying, RowBytes, GoodCell, RowDataBytes, WireValues, ContinuationAt,
      ClassicBytes, UniversalBytes;
    var wire := FormWire(ctx, form);
    HoldsSplit(message, pass.offset, LeadBytes(ctx, form), RowDataBytes(ctx.columns, row, wire));
    RowDataRoundTrip(message, pass.offset + |LeadBytes(ctx, form)|, ctx.columns, ctx.limits, row, wire);
    if form.ClassicContinuation? {
      ClassicRoundTrip(message, pass.offset, form.columns, |ctx.columns|);
    } else {
      UniversalFormRoundTrip(message, pass.offset, form.columns, |ctx.columns|);
    }
    MergedIsRow(ctx, form, Previous(ctx, pass.rows), row);
    AccountedIsMerged(ctx, |pass.rows|, pass.batchBytes, WireValues(row, wire), wire, Previous(ctx, pass.rows), row);
  }

  lemma HeaderDecodes(ctx: Context, message: Bytes, pass: Pass, form: Form, row: Row) returns (next: Pass)
    requires ctx.Accepted() && form.HasHeader() && pass.pending == None
    requires GoodForm(ctx, form, Previous(ctx, pass.rows), row) && Writable(ctx, form, row)
    requires Holds(message, pass.offset, WrittenRow(ctx, form, row))
    ensures pass.offset < |message| && Step(ctx, message, pass) == Ok(next)
    ensures next == pass.(offset := pass.offset + |LeadBytes(ctx, form)|,
      pending := if form.Partial() then Some(form.columns) else None)
    ensures Holds(message, next.offset, RowDataBytes(ctx.columns, row, FormWire(ctx, form)))
  {
    hide RowHeaderAt, HeaderBytes, RowDataBytes, RowStep, ContinuationStep, ErrorStep, SkipStep;
    HoldsSplit(message, pass.offset, LeadBytes(ctx, form), RowDataBytes(ctx.columns, row, FormWire(ctx, form)));
    HeaderRoundTrip(message, pass.offset, form.header, |ctx.columns|, if form.Partial() then Some(form.columns) else None);
    next := pass.(offset := pass.offset + |LeadBytes(ctx, form)|,
      pending := if form.Partial() then Some(form.columns) else None);
  }

  /** One written row decodes to itself, in whichever form it was sent, and decoding goes on after it. */
  lemma RowDecodes(ctx: Context, message: Bytes, pass: Pass, form: Form, row: Row)
    requires ctx.Accepted() && GoodRowFor(ctx, row) && Room(ctx, pass, row)
    requires pass.pending == None && !pass.completed
    requires GoodForm(ctx, form, Previous(ctx, pass.rows), row) && Writable(ctx, form, row)
    requires form.Partial() ==> NullWhereOmitted(ctx.columns, Previous(ctx, pass.rows).value)
    requires Holds(message, pass.offset, WrittenRow(ctx, form, row))
    ensures Run(ctx, message, pass) == Run(ctx, message, After(pass, pass.offset + |WrittenRow(ctx, form, row)|, row, form))
  {
    hide HeaderStep, RowStep, ContinuationStep, ErrorStep, SkipStep, RowDataBytes, LeadBytes, RowBytes, GoodCell;
    if form.HasHeader() {
      var next := HeaderDecodes(ctx, message, pass, form, row);
      RowDataDecodes(ctx, message, next, form, row);
      assert Run(ctx, message, pass) == Run(ctx, message, next);
    } else if form.Partial() {
      ContinuationDecodes(ctx, message, pass, form, row);
    } else {
      NoLead(ctx, form, row);
      RowDataDecodes(ctx, message, pass, form, row);
    }
  }

  lemma NoLead(ctx: Context, form: Form, row: Row)
    requires form.FullRow? && Writable(ctx, form, row)
    ensures WrittenRow(ctx, form, row) == RowDataBytes(ctx.columns, row, FormWire(ctx, form))
  {
  }

  // ----- whole responses

  function PreviousOf(previous: Option<Row>, rows: seq<Row>, index: nat): Option<Row>
    requires index <= |rows|
  {
    if index == 0 then previous else Some(rows[index - 1])
  }

  /** Rows and the forms the server sends them in, each relative to the row before it. */
  ghost predicate GoodRowsAndForms(ctx: Context, previous: Option<Row>, forms: seq<Form>, rows: seq<Row>) {
    && |forms| == |rows|
    && (previous.Some? ==> NullWhereOmitted(ctx.columns, previous.value))
    && forall i :: 0 <= i < |rows| ==>
         GoodRowFor(ctx, rows[i]) && GoodForm(ctx, forms[i], PreviousOf(previous, rows, i), rows[i])
  }

  ghost predicate WritableRows(ctx: Context, forms: seq<Form>, rows: seq<Row>) {
    |forms| == |rows| && forall i :: 0 <= i < |rows| ==> Writable(ctx, forms[i], rows[i])
  }

  /** A message without rows that the server may put between rows: return parameters, a piggyback, or an end-of-call
      that says neither that rows are exhausted nor an error. */
  ghost predicate IsNote(note: Bytes, version: nat) {
    && note != []
    && (|| (note[0] == MESSAGE_PARAMETER && ParameterAt(note, 0) == Got((), |note|))
        || (note[0] == MESSAGE_SERVER_PIGGYBACK && PiggybackAt(note, 0) == Got((), |note|))
        || (note[0] == MESSAGE_ERROR && IsEndOfCall(note, version, 0)))
  }

  /** An end-of-call with that error number. */
  ghost predicate IsEndOfCall(bytes: Bytes, version: nat, number: nat) {
    var info := ErrorAt(bytes, 0, version);
    info.Got? && info.next == |bytes| && info.value.number == number
  }

  ghost predicate AreNotes(notes: seq<Bytes>, version: nat) {
    forall i :: 0 <= i < |notes| ==> IsNote(notes[i], version)
  }

  function JoinedNotes(notes: seq<Bytes>): Bytes {
    if notes == [] then [] else notes[0] + JoinedNotes(notes[1..])
  }

  lemma NoteDecodes(ctx: Context, message: Bytes, pass: Pass, note: Bytes) returns (next: Pass)
    requires IsNote(note, ctx.version) && Holds(message, pass.offset, note) && pass.offset + |note| < |message|
    requires !pass.completed && !pass.exhausted
    ensures Run(ctx, message, pass) == Run(ctx, message, next)
    ensures next == pass.(offset := pass.offset + |note|, completion := next.completion)
  {
    hide HeaderStep, RowStep, ContinuationStep, ParameterAt, PiggybackAt, ErrorAt;
    assert message[pass.offset] == message[pass.offset..pass.offset + |note|][0];
    ParameterInPlace(message, pass.offset, note);
    PiggybackInPlace(message, pass.offset, note);
    ErrorInPlace(message, pass.offset, note, ctx.version);
    next := pass.(offset := pass.offset + |note|,
      completion := if note[0] == MESSAGE_ERROR then Some(ErrorAt(note, 0, ctx.version).value) else pass.completion);
    assert Step(ctx, message, pass) == Ok(next);
  }

  lemma {:induction false} NotesDecode(ctx: Context, message: Bytes, pass: Pass, notes: seq<Bytes>) returns (next: Pass)
    requires AreNotes(notes, ctx.version) && Holds(message, pass.offset, JoinedNotes(notes))
    requires pass.offset + |JoinedNotes(notes)| < |message| && !pass.completed && !pass.exhausted
    ensures Run(ctx, message, pass) == Run(ctx, message, next)
    ensures next == pass.(offset := pass.offset + |JoinedNotes(notes)|, completion := next.completion)
    decreases |notes|
  {
    hide Run, IsNote;
    next := pass;
    if notes != [] {
      HoldsSplit(message, pass.offset, notes[0], JoinedNotes(notes[1..]));
      var middle := NoteDecodes(ctx, message, pass, notes[0]);
      next := NotesDecode(ctx, message, middle, notes[1..]);
    }
  }

  /** Rows as they are sent, each behind the messages before it. */
  ghost function WrittenRows(ctx: Context, notes: seq<seq<Bytes>>, forms: seq<Form>, rows: seq<Row>): Bytes
    requires WritableRows(ctx, forms, rows) && |notes| == |rows|
  {
    if rows == [] then []
    else
      JoinedNotes(notes[0]) + WrittenRow(ctx, forms[0], rows[0]) + WrittenRows(ctx, notes[1..], forms[1..], rows[1..])
  }

  lemma {:induction false} BatchBytesFirst(rows: seq<Row>)
    requires rows != []
    ensures BatchBytes(rows) == RowBytes(rows[0]) + BatchBytes(rows[1..])
    decreases |rows|
  {
    if |rows| > 1 {
      BatchBytesFirst(rows[..|rows| - 1]);
      assert rows[1..][..|rows| - 2] == rows[..|rows| - 1][1..];
    } else {
      assert rows == [] + [rows[0]];
      BatchBytesAppend([], rows[0]);
    }
  }

  lemma RestGood(ctx: Context, previous: Option<Row>, forms: seq<Form>, rows: seq<Row>)
    requires GoodRowsAndForms(ctx, previous, forms, rows) && rows != []
    ensures GoodRowsAndForms(ctx, Some(rows[0]), forms[1..], rows[1..])
    ensures forms[0].Partial() ==> previous.Some? && NullWhereOmitted(ctx.columns, previous.value)
  {
    hide RowBytes, LobBytes;
    assert NullWhereOmitted(ctx.columns, rows[0]) by {
      assert GoodRowFor(ctx, rows[0]);
    }
    forall i | 0 <= i < |rows| - 1
      ensures GoodRowFor(ctx, rows[1..][i])
      ensures GoodForm(ctx, forms[1..][i], PreviousOf(Some(rows[0]), rows[1..], i), rows[1..][i])
    {
      assert GoodRowFor(ctx, rows[i + 1]) && GoodForm(ctx, forms[i + 1], PreviousOf(previous, rows, i + 1), rows[i + 1]);
    }
    assert GoodForm(ctx, forms[0], PreviousOf(previous, rows, 0), rows[0]);
  }

  ghost predicate AllNotes(notes: seq<seq<Bytes>>, version: nat) {
    forall i :: 0 <= i < |notes| ==> AreNotes(notes[i], version)
  }

  /** Written rows, wherever they stand in a response, decode to themselves. */
  lemma {:induction false} RowsDecode(ctx: Context, message: Bytes, pass: Pass, notes: seq<seq<Bytes>>, forms: seq<Form>,
                                      rows: seq<Row>)
    returns (next: Pass)
    requires ctx.Accepted() && GoodRowsAndForms(ctx, Previous(ctx, pass.rows), forms, rows)
    requires WritableRows(ctx, forms, rows) && |notes| == |rows| && AllNotes(notes, ctx.version)
    requires pass.pending == None && !pass.completed && !pass.exhausted
    requires pass.batchBytes + BatchBytes(rows) <= ctx.limits.maximumBatchBytes
    requires |pass.rows| + |rows| <= ctx.limits.maximumRows
    requires Holds(message, pass.offset, WrittenRows(ctx, notes, forms, rows))
    requires pass.offset + |WrittenRows(ctx, notes, forms, rows)| < |message|
    ensures Run(ctx, message, pass) == Run(ctx, message, next)
    ensures next.rows == pass.rows + rows && next.batchBytes == pass.batchBytes + BatchBytes(rows)
    ensures next.offset == pass.offset + |WrittenRows(ctx, notes, forms, rows)|
    ensures next.pending == None && !next.completed && !next.exhausted
    decreases |rows|
  {
    hide Run, WrittenRow, JoinedNotes, GoodRowFor, GoodForm, RowBytes, BatchBytes, Writable, NullWhereOmitted, AreNotes;
    if rows == [] {
      next := pass;
      assert BatchBytes([]) == 0 by { EmptyBatch(); }
      assert pass.rows + rows == pass.rows;
    } else {
      var lead, first := JoinedNotes(notes[0]), WrittenRow(ctx, forms[0], rows[0]);
      var rest := WrittenRows(ctx, notes[1..], forms[1..], rows[1..]);
      RestGood(ctx, Previous(ctx, pass.rows), forms, rows);
      BatchBytesFirst(rows);
      HoldsSplit(message, pass.offset, lead + first, rest);
      HoldsSplit(message, pass.offset, lead, first);
      assert GoodRowFor(ctx, rows[0]) && GoodForm(ctx, forms[0], PreviousOf(Previous(ctx, pass.rows), rows, 0), rows[0]);
      var behind := NotesDecode(ctx, message, pass, notes[0]);
      RowDecodes(ctx, message, behind, forms[0], rows[0]);
      var middle := After(behind, behind.offset + |first|, rows[0], forms[0]);
      next := RowsDecode(ctx, message, middle, notes[1..], forms[1..], rows[1..]);
      assert pass.rows + [rows[0]] + rows[1..] == pass.rows + rows;
    }
  }

  lemma EmptyBatch()
    ensures BatchBytes([]) == 0
  {
  }

  /** How a response ends: with the end of the request, a status, or an end-of-call, which may say that no row is
      left. */
  datatype Ending = EndOfRequest | Status(bytes: Bytes) | EndOfCall(bytes: Bytes, exhausted: bool) {
    ghost predicate Valid(version: nat) {
      match this
      case EndOfRequest => true
      case Status(bytes) => bytes != [] && bytes[0] == MESSAGE_STATUS && StatusAt(bytes, 0) == Got((), |bytes|)
      case EndOfCall(bytes, exhausted) =>
        bytes != [] && bytes[0] == MESSAGE_ERROR && IsEndOfCall(bytes, version, if exhausted then NO_DATA_FOUND else 0)
    }

    function Sent(): Bytes {
      match this
      case EndOfRequest => [MESSAGE_END_OF_REQUEST]
      case Status(bytes) => bytes
      case EndOfCall(bytes, _) => bytes
    }

    predicate Exhausts() {
      EndOfCall? && exhausted
    }
  }

  /** What the server answers one fetch with: rows in their forms, the messages before each and behind the last, and
      an ending. `count` is how many rows the fetch asked for. */
  datatype Response = Response(count: nat, notes: seq<seq<Bytes>>, forms: seq<Form>, rows: seq<Row>, last: seq<Bytes>,
                               ending: Ending)

  ghost function WrittenResponse(ctx: Context, response: Response): Bytes
    requires WritableRows(ctx, response.forms, response.rows) && |response.notes| == |response.rows|
  {
    WrittenRows(ctx, response.notes, response.forms, response.rows) + JoinedNotes(response.last) + response.ending.Sent()
  }

  /** The decoder made for one fetch: it takes at most the rows asked for. */
  function Asking(ctx: Context, count: nat): Context {
    ctx.(limits := ctx.limits.(maximumRows := count))
  }

  ghost predicate GoodResponse(ctx: Context, response: Response) {
    && GoodRowsAndForms(ctx, ctx.preceding, response.forms, response.rows)
    && WritableRows(ctx, response.forms, response.rows)
    && |response.notes| == |response.rows| && AllNotes(response.notes, ctx.version) && AreNotes(response.last, ctx.version)
    && response.ending.Valid(ctx.version)
    && BatchBytes(response.rows) <= ctx.limits.maximumBatchBytes
    && |response.rows| <= response.count
    && 0 < response.count
    && |WrittenResponse(ctx, response)| <= MAX_MESSAGE_BYTES
  }

  lemma PrecedingIsAccepted(ctx: Context)
    requires ctx.Accepted()
    requires ctx.preceding.Some? ==> RowBytes(ctx.preceding.value) <= ctx.limits.maximumRowBytes
    ensures PrecedingFits(ctx, NOTHING_KEPT).Ok?
  {
    hide AccountRow, RowBytes;
    if ctx.preceding.Some? {
      assert Overlay(ctx.preceding.value, [], []) == ctx.preceding.value;
      AccountedIsMerged(ctx, 0, 0, [], [], ctx.preceding, ctx.preceding.value);
    }
  }

  /** Main result, one response: decoding returns exactly the rows the server wrote, whatever form it sent each in,
      whatever messages stand between them and however it ends, consumes the response, and says whether rows are left. */
  lemma ResponseRoundTrip(ctx: Context, response: Response)
    requires ctx.Accepted() && ctx.limits.maximumRows == response.count && GoodResponse(ctx, response)
    requires ctx.preceding.Some? ==> RowBytes(ctx.preceding.value) <= ctx.limits.maximumRowBytes
    ensures var outcome := DecodeCall(ctx, WrittenResponse(ctx, response), NOTHING_KEPT);
      && outcome.Finished? && outcome.pass.completed
      && outcome.pass.rows == response.rows
      && outcome.pass.exhausted == response.ending.Exhausts()
      && outcome.pass.offset == |WrittenResponse(ctx, response)|
      && outcome.pass.batchBytes == BatchBytes(response.rows)
  {
    hide GoodResponse, Run, WrittenResponse, RowBytes, BatchBytes;
    PrecedingIsAccepted(ctx);
    RunsToItsEnd(ctx, response);
    ResponseFits(ctx, response);
  }

  lemma ResponseFits(ctx: Context, response: Response)
    requires GoodResponse(ctx, response)
    ensures |WrittenResponse(ctx, response)| <= MAX_MESSAGE_BYTES
  {
  }

  lemma RunsToItsEnd(ctx: Context, response: Response)
    requires ctx.Accepted() && ctx.limits.maximumRows == response.count && GoodResponse(ctx, response)
    ensures var message := WrittenResponse(ctx, response);
      var outcome := Run(ctx, message, Resumed(NOTHING_KEPT));
      && outcome.Finished? && outcome.pass.completed
      && outcome.pass.rows == response.rows
      && outcome.pass.exhausted == response.ending.Exhausts()
      && outcome.pass.offset == |message|
      && outcome.pass.batchBytes == BatchBytes(response.rows)
  {
    hide GoodRowFor, GoodForm, GoodRowsAndForms, RowBytes, BatchBytes, WrittenRows, WritableRows, JoinedNotes, Run,
      AllNotes, AreNotes, IsEndOfCall, StatusAt;
    var message := WrittenResponse(ctx, response);
    var written := WrittenRows(ctx, response.notes, response.forms, response.rows);
    var last, end := JoinedNotes(response.last), response.ending.Sent();
    assert Holds(message, 0, message);
    HoldsSplit(message, 0, written + last, end);
    HoldsSplit(message, 0, written, last);
    EndingIsNotEmpty(response.ending, ctx.version);
    var behind := RowsDecode(ctx, message, Resumed(NOTHING_KEPT), response.notes, response.forms, response.rows);
    var final := NotesDecode(ctx, message, behind, response.last);
    EndingDecodes(ctx, message, final, response.ending);
    assert [] + response.rows == response.rows;
  }

  lemma EndingIsNotEmpty(ending: Ending, version: nat)
    requires ending.Valid(version)
    ensures |ending.Sent()| > 0
  {
  }

  /** At its ending a pass is complete. */
  lemma EndingDecodes(ctx: Context, message: Bytes, pass: Pass, ending: Ending)
    requires ending.Valid(ctx.version) && !pass.completed && !pass.exhausted
    requires Holds(message, pass.offset, ending.Sent()) && pass.offset + |ending.Sent()| == |message|
    ensures var outcome := Run(ctx, message, pass);
      outcome.Finished?
      && outcome.pass == pass.(offset := |message|, completed := true, exhausted := ending.Exhausts(),
                               completion := outcome.pass.completion)
  {
    hide HeaderStep, RowStep, ContinuationStep, StatusAt, ErrorAt;
    var bytes := ending.Sent();
    EndingIsNotEmpty(ending, ctx.version);
    assert message[pass.offset] == message[pass.offset..pass.offset + |bytes|][0];
    StatusInPlace(message, pass.offset, bytes);
    ErrorInPlace(message, pass.offset, bytes, ctx.version);
    var next := Step(ctx, message, pass);
    assert next.Ok? && next.value.completed;
    assert Run(ctx, message, pass) == Finished(next.value);
  }

  // ----- chains of responses

  /** What a cursor is sent, fetch after fetch: how many rows it asked for, and the response. */
  datatype Fetched = Fetched(count: nat, message: Bytes)

  /** The rows a cursor returns: each response decoded relative to the last row of the one before, up to the one that
      says no row is left. */
  function FetchAll(ctx: Context, fetched: seq<Fetched>): Result<seq<Row>>
    decreases |fetched|
  {
    if fetched == [] then Ok([])
    else
      match DecodeCall(Asking(ctx, fetched[0].count), fetched[0].message, NOTHING_KEPT)
      case Threw(kind, _) => Err(kind)
      case Finished(pass) =>
        if pass.exhausted then Ok(pass.rows)
        else
          var rest :- FetchAll(ctx.(preceding := Previous(ctx, pass.rows)), fetched[1..]);
          Ok(pass.rows + rest)
  }

  /** The responses of a cursor; nothing is fetched once one says that no row is left. */
  ghost predicate GoodResponses(ctx: Context, responses: seq<Response>)
    decreases |responses|
  {
    responses == [] ||
    ( && GoodResponse(Asking(ctx, responses[0].count), responses[0])
      && (responses[0].ending.Exhausts() ==> |responses| == 1)
      && GoodResponses(ctx.(preceding := Previous(ctx, responses[0].rows)), responses[1..]))
  }

  ghost function Written(ctx: Context, responses: seq<Response>): seq<Fetched>
    requires GoodResponses(ctx, responses)
    decreases |responses|
  {
    if responses == [] then []
    else
      [Fetched(responses[0].count, WrittenResponse(Asking(ctx, responses[0].count), responses[0]))]
      + Written(ctx.(preceding := Previous(ctx, responses[0].rows)), responses[1..])
  }

  function AllRows(responses: seq<Response>): seq<Row> {
    if responses == [] then [] else responses[0].rows + AllRows(responses[1..])
  }

  lemma LastRowFits(ctx: Context, response: Response)
    requires ctx.Accepted() && GoodRowsAndForms(ctx, ctx.preceding, response.forms, response.rows)
    requires ctx.preceding.Some? ==> RowBytes(ctx.preceding.value) <= ctx.limits.maximumRowBytes
    ensures var next := ctx.(preceding := Previous(ctx, response.rows));
      && next.Accepted()
      && (next.preceding.Some? ==> RowBytes(next.preceding.value) <= next.limits.maximumRowBytes)
  {
    hide GoodForm, RowBytes;
    if response.rows != [] {
      assert GoodRowFor(ctx, response.rows[|response.rows| - 1]);
    }
  }

  /** Main result, whole cursors: a row sequence cut into responses any way, each row sent in any form that the row
      before it allows across the cuts, fetched in batches of any size, is fetched back whole. */
  lemma {:induction false} CursorRoundTrip(ctx: Context, responses: seq<Response>)
    requires ctx.Accepted() && GoodResponses(ctx, responses)
    requires ctx.preceding.Some? ==> RowBytes(ctx.preceding.value) <= ctx.limits.maximumRowBytes
    ensures FetchAll(ctx, Written(ctx, responses)) == Ok(AllRows(responses))
    decreases |responses|
  {
    hide DecodeCall, WrittenResponse, GoodRowsAndForms, RowBytes, BatchBytes, WritableRows, AllNotes, AreNotes;
    if responses != [] {
      var first := responses[0];
      var asking := Asking(ctx, first.count);
      var next := ctx.(preceding := Previous(ctx, first.rows));
      ResponseRoundTrip(asking, first);
      LastRowFits(asking, first);
      CursorRoundTrip(next, responses[1..]);
      var fetched := Written(ctx, responses);
      assert fetched[0] == Fetched(first.count, WrittenResponse(asking, first));
      assert fetched[1..] == Written(next, responses[1..]);
      if first.ending.Exhausts() {
        assert responses[1..] == [];
        assert first.rows + [] == first.rows;
      }
    }
  }
}
