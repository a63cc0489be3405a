/**
 How one row is written in a fetch response: the row header and its column selection, the
 continuation marker and its bitmap, the values themselves, and how changed values are laid over the
 row before.
 */
module RowFormat {
  import opened ByteBuffer
  import opened Protocol

  const MESSAGE_ROW_HEADER: byte := 6
  const MESSAGE_ROW_DATA: byte := 7
  const MESSAGE_ROW_CONTINUATION: byte := 21

  const TYPE_CLOB := 112
  const TYPE_BLOB := 113

  /** A described column: its wire type, and whether its declared maximum length is zero, in which case
      it is always NULL and the server leaves it out of every row. */
  datatype Column = Column(oracleType: nat, omitted: bool) {
    predicate IsLob() {
      oracleType == TYPE_CLOB || oracleType == TYPE_BLOB
    }
  }

  datatype Limits = Limits(
    prefixUnits: nat, maximumContentBytes: nat, maximumRowBytes: nat, maximumBatchBytes: nat, maximumRows: nat)

  type Cell = Option<Bytes>
  type Row = seq<Cell>

  function CellBytes(cell: Cell): nat {
    if cell.Some? then |cell.value| else 0
  }

  /** The bytes a row occupies in memory, which is what the row and batch budgets count. */
  function RowBytes(row: Row): nat {
    if row == [] then 0 else RowBytes(row[..|row| - 1]) + CellBytes(row[|row| - 1])
  }

  lemma {:induction false} RowBytesPrefix(row: Row, count: nat)
    requires count <= |row|
    ensures RowBytes(row[..count]) <= RowBytes(row)
    decreases |row|
  {
    if count < |row| {
      var rest := row[..|row| - 1];
      RowBytesPrefix(rest, count);
      assert rest[..count] == row[..count];
    } else {
      assert row[..count] == row;
    }
  }

  // ----- column selections

  predicate Increasing(columns: seq<nat>) {
    forall i, j :: 0 <= i < j < |columns| ==> columns[i] < columns[j]
  }

  predicate Within(columns: seq<nat>, columnCount: nat) {
    forall i :: 0 <= i < |columns| ==> columns[i] < columnCount
  }

  /** `changed` counts the selected columns before `column`. */
  ghost predicate CountsBelow(selected: seq<nat>, column: nat, changed: nat) {
    && changed <= |selected|
    && (forall i :: 0 <= i < changed ==> selected[i] < column)
    && (changed < |selected| ==> column <= selected[changed])
  }

  function Power2(bit: nat): (p: nat)
    requires bit < 8
    ensures p > 0
  {
    match bit
    case 0 => 1
    case 1 => 2
    case 2 => 4
    case 3 => 8
    case 4 => 16
    case 5 => 32
    case 6 => 64
    case 7 => 128
  }

  function BitmapSize(columnCount: nat): nat {
    (columnCount + 7) / 8
  }

  predicate BitSet(bitmap: Bytes, column: nat)
    requires column / 8 < |bitmap|
  {
    bitmap[column / 8] / Power2(column % 8) % 2 == 1
  }

  /** The columns below `columnCount` whose bit is set, lowest first. */
  function SelectedColumns(bitmap: Bytes, columnCount: nat): (selected: seq<nat>)
    requires BitmapSize(columnCount) <= |bitmap|
    ensures Increasing(selected) && Within(selected, columnCount)
  {
    if columnCount == 0 then []
    else
      var rest := SelectedColumns(bitmap, columnCount - 1);
      if BitSet(bitmap, columnCount - 1) then rest + [columnCount - 1] else rest
  }

  lemma {:induction false} SelectedWhenSet(bitmap: Bytes, columnCount: nat, column: nat)
    requires BitmapSize(columnCount) <= |bitmap|
    requires column < columnCount
    ensures column in SelectedColumns(bitmap, columnCount) <==> BitSet(bitmap, column)
  {
    if column < columnCount - 1 {
      SelectedWhenSet(bitmap, columnCount - 1, column);
    }
  }

  method SelectColumns(bitmap: Bytes, columnCount: nat) returns (selected: seq<nat>)
    requires BitmapSize(columnCount) <= |bitmap|
    ensures selected == SelectedColumns(bitmap, columnCount)
  {
    selected := [];
    for column := 0 to columnCount
      invariant selected == SelectedColumns(bitmap, column)
    {
      if BitSet(bitmap, column) {
        selected := selected + [column];
      }
    }
  }

  /** The columns of a selection that carry bytes on the wire, in its order. */
  function Carrying(columns: seq<Column>, selected: seq<nat>): (r: Result<seq<nat>>)
    ensures r.Ok? ==> Within(r.value, |columns|)
  {
    if selected == [] then Ok([])
    else
      var last := selected[|selected| - 1];
      var rest :- Carrying(columns, selected[..|selected| - 1]);
      if last >= |columns| then Err(Malformed)
      else if columns[last].omitted then Ok(rest)
      else Ok(rest + [last])
  }

  function FirstColumns(count: nat): (all: seq<nat>)
    ensures |all| == count && forall i :: 0 <= i < count ==> all[i] == i
  {
    seq(count, i => i)
  }

  /** The columns that carry bytes when a header or continuation selects some, or else in a full row. */
  function WireColumns(columns: seq<Column>, selected: Option<seq<nat>>): (r: Result<seq<nat>>)
    ensures r.Ok? ==> Within(r.value, |columns|)
  {
    Carrying(columns, if selected.Some? then selected.value else FirstColumns(|columns|))
  }

  /** A selection that is increasing and in range stays so when its omitted columns are dropped. */
  lemma {:induction false} CarryingColumns(columns: seq<Column>, selected: seq<nat>, bound: nat)
    requires Increasing(selected) && Within(selected, bound) && bound <= |columns|
    ensures Carrying(columns, selected).Ok?
    ensures Increasing(Carrying(columns, selected).value) && Within(Carrying(columns, selected).value, bound)
  {
    if selected != [] {
      CarryingColumns(columns, selected[..|selected| - 1], selected[|selected| - 1]);
    }
  }

  lemma {:induction false} CarriedUnlessOmitted(columns: seq<Column>, selected: seq<nat>, column: nat)
    requires Within(selected, |columns|) && column < |columns|
    requires Carrying(columns, selected).Ok?
    ensures column in Carrying(columns, selected).value <==> column in selected && !columns[column].omitted
  {
    if selected != [] {
      var rest := selected[..|selected| - 1];
      assert selected == rest + [selected[|selected| - 1]];
      CarriedUnlessOmitted(columns, rest, column);
    }
  }

  method WireCarryingColumns(columns: seq<Column>, selected: Option<seq<nat>>) returns (result: Result<seq<nat>>)
    ensures result == WireColumns(columns, selected)
  {
    var wire: seq<nat> := [];
    if selected.Some? {
      for index := 0 to |selected.value|
        invariant Carrying(columns, selected.value[..index]) == Ok(wire)
      {
        var column := selected.value[index];
        assert selected.value[..index + 1][..index] == selected.value[..index];
        if column >= |columns| {
          CarryingFails(columns, selected.value, index + 1);
          return Err(Malformed);
        }
        if !columns[column].omitted {
          wire := wire + [column];
        }
      }
      assert selected.value[..|selected.value|] == selected.value;
      return Ok(wire);
    }
    for column := 0 to |columns|
      invariant Carrying(columns, FirstColumns(column)) == Ok(wire)
    {
      assert FirstColumns(column + 1)[..column] == FirstColumns(column);
      if !columns[column].omitted {
        wire := wire + [column];
      }
    }
    return Ok(wire);
  }

  lemma CarryingFails(columns: seq<Column>, selected: seq<nat>, count: nat)
    requires count <= |selected|
    requires Carrying(columns, selected[..count]) == Err(Malformed)
    ensures Carrying(columns, selected) == Err(Malformed)
    decreases |selected| - count
  {
    if count < |selected| {
      assert selected[..count + 1][..count] == selected[..count];
      CarryingFails(columns, selected, count + 1);
    } else {
      assert selected[..count] == selected;
    }
  }

  // ----- the row header

  /** The fixed fields before a row header's bit vector. */
  function HeaderFieldsAt(data: Bytes, pos: nat): (r: Read<()>)
    ensures r.Got? ==> pos < r.next <= |data|
  {
    var (message, p1) :- ByteAt(data, pos);
    if message != MESSAGE_ROW_HEADER then Failed(Malformed)
    else
      var (_, p2) :- RawAt(data, p1, 1);
      var (_, p3) :- UB2At(data, p2);
      var (_, p4) :- UB4At(data, p3);
      var (_, p5) :- UB4At(data, p4);
      var (_, p6) :- UB2At(data, p5);
      Got((), p6)
  }

  /** The bit vector of a row header. An absent one is no selection; an all-zero one selects no column,
      so that the row after it repeats the row before. */
  function HeaderSelectionAt(data: Bytes, pos: nat, columnCount: nat): (r: Read<Option<seq<nat>>>)
    ensures r.Got? ==> pos < r.next <= |data|
    ensures r.Got? && r.value.Some? ==>
      Increasing(r.value.value) && Within(r.value.value, columnCount)
  {
    var (size, next) :- UB4At(data, pos);
    if size == 0 then Got(None, next)
    else if size != BitmapSize(columnCount) then Failed(Malformed)
    else
      var (bitmap, end) :- LengthPrefixedAt(data, next, size);
      if bitmap.None? || |bitmap.value| != size then Failed(Malformed)
      else Got(Some(SelectedColumns(bitmap.value, columnCount)), end)
  }

  function HeaderRowidAt(data: Bytes, pos: nat): (r: Read<()>)
    ensures r.Got? ==> pos < r.next <= |data|
  {
    var (size, next) :- UB4At(data, pos);
    if size == 0 then Got((), next)
    else
      var (rowid, end) :- LengthPrefixedAt(data, next, size);
      if rowid.None? || |rowid.value| != size then Failed(Malformed) else Got((), end)
  }

  function RowHeaderAt(data: Bytes, pos: nat, columnCount: nat): (r: Read<Option<seq<nat>>>)
    ensures r.Got? ==> pos < r.next <= |data|
    ensures r.Got? && r.value.Some? ==>
      Increasing(r.value.value) && Within(r.value.value, columnCount)
  {
    var (_, p1) :- HeaderFieldsAt(data, pos);
    var (selection, p2) :- HeaderSelectionAt(data, p1, columnCount);
    var (_, p3) :- HeaderRowidAt(data, p2);
    Got(selection, p3)
  }

  method DecodeRowHeaderPrefix(data: Bytes, pos: nat, columnCount: nat) returns (r: Read<Option<seq<nat>>>)
    requires pos <= |data|
    ensures r == RowHeaderAt(data, pos, columnCount)
  {
    var reader := new ByteReader(data);
    reader.position := pos;
    var fields := ReadHeaderFields(reader);
    if fields.Err? {
      return Failed(fields.kind);
    }
    var size := reader.ReadUniversal(4);
    if size.Err? {
      return Failed(size.kind);
    }
    var selection: Option<seq<nat>> := None;
    if size.value != 0 {
      if size.value != BitmapSize(columnCount) {
        return Failed(Malformed);
      }
      var bitmap := reader.ReadLengthPrefixed(size.value);
      if bitmap.Err? {
        return Failed(bitmap.kind);
      }
      if bitmap.value.None? || |bitmap.value.value| != size.value {
        return Failed(Malformed);
      }
      var selected := SelectColumns(bitmap.value.value, columnCount);
      selection := Some(selected);
    }
    var rowid := ReadHeaderRowid(reader);
    if rowid.Err? {
      return Failed(rowid.kind);
    }
    return Got(selection, reader.position);
  }

  method ReadHeaderFields(reader: ByteReader) returns (r: Result<()>)
    requires reader.Valid()
    modifies reader
    ensures reader.Valid() && reader.Reads(HeaderFieldsAt(reader.data, old(reader.position)), r)
  {
    var message :- reader.ReadByte();
    if message != MESSAGE_ROW_HEADER {
      return Err(Malformed);
    }
    var _ :- reader.ReadRaw(1);
    var _ :- reader.ReadUniversal(2);
    var _ :- reader.ReadUniversal(4);
    var _ :- reader.ReadUniversal(4);
    var _ :- reader.ReadUniversal(2);
    return Ok(());
  }

  method ReadHeaderRowid(reader: ByteReader) returns (r: Result<()>)
    requires reader.Valid()
    modifies reader
    ensures reader.Valid() && reader.Reads(HeaderRowidAt(reader.data, old(reader.position)), r)
  {
    var size :- reader.ReadUniversal(4);
    if size != 0 {
      var rowid :- reader.ReadLengthPrefixed(size);
      if rowid.None? || |rowid.value| != size {
        return Err(Malformed);
      }
    }
    return Ok(());
  }

  // ----- the continuation marker

  /** A continuation's bitmap under one reading of its count, or nothing when the two disagree. */
  function BitmapAt(data: Bytes, pos: nat, count: nat, columnCount: nat): (r: Read<Option<seq<nat>>>)
    ensures r.Got? ==> pos <= r.next && (pos <= |data| ==> r.next <= |data|)
    ensures r.Got? && r.value.Some? ==>
      && |r.value.value| == count
      && Increasing(r.value.value)
      && Within(r.value.value, columnCount)
  {
    if count > columnCount then Got(None, pos)
    else
      var (bitmap, next) :- RawAt(data, pos, BitmapSize(columnCount));
      var selected := SelectedColumns(bitmap, columnCount);
      Got(if |selected| == count then Some(selected) else None, next)
  }

  /** Two server profiles write the count of changed columns differently: as a little-endian 16-bit
      number, or as a universal integer. The first whose bitmap has that many bits set is taken. */
  function ContinuationAt(data: Bytes, pos: nat, columnCount: nat): (r: Read<seq<nat>>)
    ensures r.Got? ==> pos < r.next <= |data|
    ensures r.Got? ==> Increasing(r.value) && Within(r.value, columnCount)
  {
    var (message, start) :- ByteAt(data, pos);
    if message != MESSAGE_ROW_CONTINUATION then Failed(Malformed)
    else
      var (classicCount, p1) :- UInt16LEAt(data, start);
      var (classic, p2) :- BitmapAt(data, p1, classicCount, columnCount);
      if classic.Some? then Got(classic.value, p2)
      else
        var (universalCount, p3) :- UB2At(data, start);
        var (universal, p4) :- BitmapAt(data, p3, universalCount, columnCount);
        if universal.Some? then Got(universal.value, p4) else Failed(Malformed)
  }

  method DecodeRowContinuationPrefix(data: Bytes, pos: nat, columnCount: nat) returns (r: Read<seq<nat>>)
    requires pos <= |data|
    ensures r == ContinuationAt(data, pos, columnCount)
  {
    var reader := new ByteReader(data);
    reader.position := pos;
    var message := reader.ReadByte();
    if message.Err? {
      return Failed(message.kind);
    }
    if message.value != MESSAGE_ROW_CONTINUATION {
      return Failed(Malformed);
    }
    var classicCount := reader.ReadUInt16LE();
    if classicCount.Err? {
      return Failed(classicCount.kind);
    }
    var classic := ReadBitmap(reader, classicCount.value, columnCount);
    if classic.Err? {
      return Failed(classic.kind);
    }
    if classic.value.Some? {
      return Got(classic.value.value, reader.position);
    }
    reader.position := pos + 1;
    var universalCount := reader.ReadUniversal(2);
    if universalCount.Err? {
      return Failed(universalCount.kind);
    }
    var universal := ReadBitmap(reader, universalCount.value, columnCount);
    if universal.Err? {
      return Failed(universal.kind);
    }
    if universal.value.Some? {
      return Got(universal.value.value, reader.position);
    }
    return Failed(Malformed);
  }

  method ReadBitmap(reader: ByteReader, count: nat, columnCount: nat) returns (r: Result<Option<seq<nat>>>)
    requires reader.Valid()
    modifies reader
    ensures reader.Valid() && reader.Reads(BitmapAt(reader.data, old(reader.position), count, columnCount), r)
  {
    if count > columnCount {
      return Ok(None);
    }
    var bitmap :- reader.ReadRaw(BitmapSize(columnCount));
    var selected := SelectColumns(bitmap, columnCount);
    if |selected| != count {
      return Ok(None);
    }
    return Ok(Some(selected));
  }

  // ----- the values of a row

  /** The character set fields of a prefetched CLOB cell; only UTF-16 is accepted, or no character set at
      all on an empty value. */
  function CharsetAt(data: Bytes, pos: nat, totalUnits: nat): (r: Read<()>)
    ensures r.Got? ==> pos < r.next <= |data|
  {
    var (hasCharset, p1) :- ByteAt(data, pos);
    if hasCharset > 1 then Failed(Malformed)
    else
      var (charset, p2) :- if hasCharset == 1 then UB2At(data, p1) else Got(0, p1);
      var (form, p3) :- ByteAt(data, p2);
      var emptyWithoutCharset := hasCharset == 0 && form == 1 && totalUnits == 0;
      if !emptyWithoutCharset && (charset != 2000 || (form != 1 && form != 2) || (hasCharset == 0 && form != 2)) then
        Failed(Unsupported)
      else
        Got((), p3)
  }

  /** The leading part of a LOB value sent with its locator, when the cursor asked for one. */
  function PrefixAt(data: Bytes, pos: nat, character: bool, totalUnits: nat, limits: Limits): (r: Read<()>)
    ensures r.Got? ==> pos <= r.next && (pos <= |data| ==> r.next <= |data|)
  {
    if limits.prefixUnits == 0 then Got((), pos)
    else
      var width := if character then 2 else 1;
      var (_, p1) :- if character then CharsetAt(data, pos, totalUnits) else Got((), pos);
      var (prefix, p2) :- LengthPrefixedAt(data, p1, limits.prefixUnits * width);
      if CellBytes(prefix) % width != 0 then Failed(Malformed)
      else if CellBytes(prefix) / width > totalUnits then Failed(Malformed)
      else Got((), p2)
  }

  /** A prefetched LOB cell; false when it is NULL. */
  function LobCellAt(data: Bytes, pos: nat, character: bool, limits: Limits): (r: Read<bool>)
    ensures r.Got? ==> pos < r.next <= |data|
  {
    if limits.prefixUnits > 32768 || limits.maximumContentBytes == 0 then Failed(Malformed)
    else
      var (locatorSize, p1) :- UB4At(data, pos);
      if locatorSize == 0 then Got(false, p1)
      else if locatorSize > 4096 then Failed(LimitExceeded)
      else
        var (totalUnits, p2) :- UniversalAt(data, p1, 8);
        if totalUnits > limits.maximumContentBytes / (if character then 2 else 1) then Failed(LimitExceeded)
        else
          var (_, p3) :- UB4At(data, p2);
          var (_, p4) :- PrefixAt(data, p3, character, totalUnits, limits);
          var (locator, p5) :- LengthPrefixedAt(data, p4, locatorSize);
          if locator.None? || |locator.value| != locatorSize then Failed(Malformed) else Got(true, p5)
  }

  /** One value: a scalar, or the whole wire slice of a LOB cell, within what is left of the row budget. */
  function CellAt(data: Bytes, pos: nat, column: Column, limits: Limits, budget: nat): (r: Read<Cell>)
    ensures r.Got? ==> pos < r.next <= |data| && CellBytes(r.value) <= budget
  {
    if !column.IsLob() then
      LengthPrefixedAt(data, pos, budget)
    else
      var (present, next) :- LobCellAt(data, pos, column.oracleType == TYPE_CLOB, limits);
      if !present then Got(None, next)
      else if next - pos > budget then Failed(LimitExceeded)
      else Got(Some(data[pos..next]), next)
  }

  /** The values of a row, one per wire column; `taken` are those already read. */
  function ValuesAt(data: Bytes, pos: nat, wire: seq<nat>, columns: seq<Column>, limits: Limits, taken: seq<Cell>): (r: Read<seq<Cell>>)
    requires |taken| <= |wire| && RowBytes(taken) <= limits.maximumRowBytes
    ensures r.Got? ==> pos <= r.next && (pos <= |data| ==> r.next <= |data|)
    ensures r.Got? ==> |r.value| == |wire| && RowBytes(r.value) <= limits.maximumRowBytes
    decreases |wire| - |taken|
  {
    if |taken| == |wire| then Got(taken, pos)
    else if wire[|taken|] >= |columns| then Failed(Malformed)
    else
      var (cell, next) :- CellAt(data, pos, columns[wire[|taken|]], limits, limits.maximumRowBytes - RowBytes(taken));
      RowBytesAppend(taken, cell);
      ValuesAt(data, next, wire, columns, limits, taken + [cell])
  }

  /** What reading one more value makes of the rest of a row. */
  lemma ValuesStep(data: Bytes, pos: nat, wire: seq<nat>, columns: seq<Column>, limits: Limits, taken: seq<Cell>)
    requires |taken| <= |wire| && RowBytes(taken) <= limits.maximumRowBytes
    ensures |taken| == |wire| ==> ValuesAt(data, pos, wire, columns, limits, taken) == Got(taken, pos)
    ensures |taken| < |wire| && wire[|taken|] >= |columns| ==>
      ValuesAt(data, pos, wire, columns, limits, taken) == Failed(Malformed)
    ensures |taken| < |wire| && wire[|taken|] < |columns| ==>
      var cell := CellAt(data, pos, columns[wire[|taken|]], limits, limits.maximumRowBytes - RowBytes(taken));
      && (cell.Failed? ==> ValuesAt(data, pos, wire, columns, limits, taken) == Failed(cell.kind))
      && (cell.Got? ==>
        && RowBytes(taken + [cell.value]) <= limits.maximumRowBytes
        && ValuesAt(data, pos, wire, columns, limits, taken)
           == ValuesAt(data, cell.next, wire, columns, limits, taken + [cell.value]))
  {
    hide CellAt;
    if |taken| < |wire| && wire[|taken|] < |columns| {
      var cell := CellAt(data, pos, columns[wire[|taken|]], limits, limits.maximumRowBytes - RowBytes(taken));
      if cell.Got? {
        RowBytesAppend(taken, cell.value);
      }
    }
  }

  lemma RowBytesAppend(row: Row, cell: Cell)
    ensures RowBytes(row + [cell]) == RowBytes(row) + CellBytes(cell)
  {
    assert (row + [cell])[..|row|] == row;
  }

  function RowDataAt(data: Bytes, pos: nat, wire: seq<nat>, columns: seq<Column>, limits: Limits): (r: Read<seq<Cell>>)
    ensures r.Got? ==> pos < r.next <= |data| && |r.value| == |wire|
  {
    var (message, next) :- ByteAt(data, pos);
    if message != MESSAGE_ROW_DATA then Failed(Malformed)
    else ValuesAt(data, next, wire, columns, limits, [])
  }

  method DecodePrefetchedRow(data: Bytes, pos: nat, wire: seq<nat>, columns: seq<Column>, limits: Limits)
    returns (r: Read<seq<Cell>>)
    ensures r == RowDataAt(data, pos, wire, columns, limits)
  {
    if pos >= |data| {
      return Failed(Truncated);
    }
    if data[pos] != MESSAGE_ROW_DATA {
      return Failed(Malformed);
    }
    hide CellAt, ValuesAt;
    var values: seq<Cell> := [];
    var rowBytes: nat := 0;
    var at := pos + 1;
    for index := 0 to |wire|
      invariant pos < at <= |data|
      invariant |values| == index && rowBytes == RowBytes(values) <= limits.maximumRowBytes
      invariant RowDataAt(data, pos, wire, columns, limits) == ValuesAt(data, at, wire, columns, limits, values)
    {
      ValuesStep(data, at, wire, columns, limits, values);
      if wire[index] >= |columns| {
        return Failed(Malformed);
      }
      var cell := CellAt(data, at, columns[wire[index]], limits, limits.maximumRowBytes - rowBytes);
      if cell.Failed? {
        return Failed(cell.kind);
      }
      RowBytesAppend(values, cell.value);
      values := values + [cell.value];
      rowBytes := rowBytes + CellBytes(cell.value);
      at := cell.next;
    }
    ValuesStep(data, at, wire, columns, limits, values);
    return Got(values, at);
  }

  // ----- laying values over a row

  /** A row with the values of the given columns replaced. */
  function Overlay(row: Row, columns: seq<nat>, values: seq<Cell>): (r: Row)
    requires |columns| == |values|
    requires Within(columns, |row|)
    ensures |r| == |row|
  {
    if columns == [] then row
    else
      var last := |columns| - 1;
      Overlay(row, columns[..last], values[..last])[columns[last] := values[last]]
  }

  function NullRow(columnCount: nat): (row: Row)
    ensures |row| == columnCount
  {
    seq(columnCount, _ => None)
  }

  method MergeChangedColumns(previous: Row, present: seq<nat>, values: seq<Cell>, columnCount: nat)
    returns (r: Result<Row>)
    requires Within(present, columnCount)
    ensures r == if |previous| != columnCount || |present| != |values| then Err(Malformed)
                 else Ok(Overlay(previous, present, values))
  {
    if |previous| != columnCount || |present| != |values| {
      return Err(Malformed);
    }
    var row := OverlayLoop(previous, present, values);
    return Ok(row);
  }

  method ExpandWireRow(columnCount: nat, wire: seq<nat>, values: seq<Cell>) returns (r: Result<Row>)
    requires Within(wire, columnCount)
    ensures r == if |wire| != |values| then Err(Malformed) else Ok(Overlay(NullRow(columnCount), wire, values))
  {
    if |wire| != |values| {
      return Err(Malformed);
    }
    var row := OverlayLoop(NullRow(columnCount), wire, values);
    return Ok(row);
  }

  method OverlayLoop(start: Row, columns: seq<nat>, values: seq<Cell>) returns (row: Row)
    requires |columns| == |values|
    requires Within(columns, |start|)
    ensures row == Overlay(start, columns, values)
  {
    row := start;
    for index := 0 to |columns|
      invariant |row| == |start|
      invariant row == Overlay(start, columns[..index], values[..index])
    {
      row := row[columns[index] := values[index]];
      assert columns[..index + 1][..index] == columns[..index];
      assert values[..index + 1][..index] == values[..index];
    }
    assert columns[..|columns|] == columns && values[..|columns|] == values;
  }

  /** What an overlay leaves in each column: the value given for it, or what was there. */
  lemma {:induction false} OverlayAt(row: Row, columns: seq<nat>, values: seq<Cell>, column: nat)
    requires |columns| == |values| && Increasing(columns)
    requires Within(columns, |row|)
    requires column < |row|
    ensures column !in columns ==> Overlay(row, columns, values)[column] == row[column]
    ensures forall i :: 0 <= i < |columns| && columns[i] == column ==> Overlay(row, columns, values)[column] == values[i]
  {
    if columns != [] {
      var last := |columns| - 1;
      assert columns == columns[..last] + [columns[last]];
      OverlayAt(row, columns[..last], values[..last], column);
    }
  }
}
