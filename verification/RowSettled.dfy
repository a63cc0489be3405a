/** The parts of a row read the same whatever bytes follow them. */
module RowSettled {
  import opened ByteBuffer
  import opened Protocol
  import opened RowFormat

  lemma HeaderFieldsSettled(short: Bytes, long: Bytes, pos: nat)
    requires short <= long
    ensures Settled(HeaderFieldsAt(short, pos), HeaderFieldsAt(long, pos))
  {
    hide UniversalAt;
    RawSettled(short, long, pos + 1, 1);
    UniversalSettled(short, long, pos + 2, 2);
    var p3 := UB2At(short, pos + 2);
    if p3.Got? {
      UniversalSettled(short, long, p3.next, 4);
      var p4 := UB4At(short, p3.next);
      if p4.Got? {
        UniversalSettled(short, long, p4.next, 4);
        var p5 := UB4At(short, p4.next);
        if p5.Got? {
          UniversalSettled(short, long, p5.next, 2);
        }
      }
    }
  }

  lemma HeaderSelectionSettled(short: Bytes, long: Bytes, pos: nat, columnCount: nat)
    requires short <= long
    ensures Settled(HeaderSelectionAt(short, pos, columnCount), HeaderSelectionAt(long, pos, columnCount))
  {
    hide UniversalAt, LengthPrefixedAt, SelectedColumns;
    UniversalSettled(short, long, pos, 4);
    var size := UB4At(short, pos);
    if size.Got? {
      LengthPrefixedSettled(short, long, size.next, size.value);
    }
  }

  lemma HeaderRowidSettled(short: Bytes, long: Bytes, pos: nat)
    requires short <= long
    ensures Settled(HeaderRowidAt(short, pos), HeaderRowidAt(long, pos))
  {
    hide UniversalAt, LengthPrefixedAt;
    UniversalSettled(short, long, pos, 4);
    var size := UB4At(short, pos);
    if size.Got? {
      LengthPrefixedSettled(short, long, size.next, size.value);
    }
  }

  lemma RowHeaderSettled(short: Bytes, long: Bytes, pos: nat, columnCount: nat)
    requires short <= long
    ensures Settled(RowHeaderAt(short, pos, columnCount), RowHeaderAt(long, pos, columnCount))
  {
    hide HeaderFieldsAt, HeaderSelectionAt, HeaderRowidAt;
    HeaderFieldsSettled(short, long, pos);
    var p1 := HeaderFieldsAt(short, pos);
    if p1.Got? {
      HeaderSelectionSettled(short, long, p1.next, columnCount);
      var p2 := HeaderSelectionAt(short, p1.next, columnCount);
      if p2.Got? {
        HeaderRowidSettled(short, long, p2.next);
      }
    }
  }

  lemma BitmapSettled(short: Bytes, long: Bytes, pos: nat, count: nat, columnCount: nat)
    requires short <= long
    ensures Settled(BitmapAt(short, pos, count, columnCount), BitmapAt(long, pos, count, columnCount))
  {
    hide RawAt, SelectedColumns;
    RawSettled(short, long, pos, BitmapSize(columnCount));
  }

  lemma ContinuationSettled(short: Bytes, long: Bytes, pos: nat, columnCount: nat)
    requires short <= long
    ensures Settled(ContinuationAt(short, pos, columnCount), ContinuationAt(long, pos, columnCount))
  {
    hide UniversalAt, RawAt, BitmapAt, LittleEndian;
    RawSettled(short, long, pos + 1, 2);
    var classicCount := UInt16LEAt(short, pos + 1);
    if classicCount.Got? {
      BitmapSettled(short, long, classicCount.next, classicCount.value, columnCount);
      UniversalSettled(short, long, pos + 1, 2);
      var universalCount := UB2At(short, pos + 1);
      if universalCount.Got? {
        BitmapSettled(short, long, universalCount.next, universalCount.value, columnCount);
      }
    }
  }

  lemma CharsetSettled(short: Bytes, long: Bytes, pos: nat, totalUnits: nat)
    requires short <= long
    ensures Settled(CharsetAt(short, pos, totalUnits), CharsetAt(long, pos, totalUnits))
  {
    hide UniversalAt;
    UniversalSettled(short, long, pos + 1, 2);
  }

  lemma PrefixSettled(short: Bytes, long: Bytes, pos: nat, character: bool, totalUnits: nat, limits: Limits)
    requires short <= long
    ensures Settled(PrefixAt(short, pos, character, totalUnits, limits), PrefixAt(long, pos, character, totalUnits, limits))
  {
    hide CharsetAt, LengthPrefixedAt;
    CharsetSettled(short, long, pos, totalUnits);
    var p1 := if character then CharsetAt(short, pos, totalUnits) else Got((), pos);
    if p1.Got? {
      LengthPrefixedSettled(short, long, p1.next, limits.prefixUnits * (if character then 2 else 1));
    }
  }

  lemma LobCellSettled(short: Bytes, long: Bytes, pos: nat, character: bool, limits: Limits)
    requires short <= long
    ensures Settled(LobCellAt(short, pos, character, limits), LobCellAt(long, pos, character, limits))
  {
    hide UniversalAt, PrefixAt, LengthPrefixedAt;
    UniversalSettled(short, long, pos, 4);
    var p1 := UB4At(short, pos);
    if p1.Got? {
      UniversalSettled(short, long, p1.next, 8);
      var p2 := UniversalAt(short, p1.next, 8);
      if p2.Got? {
        UniversalSettled(short, long, p2.next, 4);
        var p3 := UB4At(short, p2.next);
        if p3.Got? {
          PrefixSettled(short, long, p3.next, character, p2.value, limits);
          var p4 := PrefixAt(short, p3.next, character, p2.value, limits);
          if p4.Got? {
            LengthPrefixedSettled(short, long, p4.next, p1.value);
          }
        }
      }
    }
  }

  lemma CellSettled(short: Bytes, long: Bytes, pos: nat, column: Column, limits: Limits, budget: nat)
    requires short <= long
    ensures Settled(CellAt(short, pos, column, limits, budget), CellAt(long, pos, column, limits, budget))
  {
    hide LobCellAt, LengthPrefixedAt;
    LengthPrefixedSettled(short, long, pos, budget);
    LobCellSettled(short, long, pos, column.oracleType == TYPE_CLOB, limits);
    var present := LobCellAt(short, pos, column.oracleType == TYPE_CLOB, limits);
    if present.Got? {
      assert short[pos..present.next] == long[pos..present.next];
    }
  }

  lemma {:induction false} ValuesSettled(short: Bytes, long: Bytes, pos: nat, wire: seq<nat>, columns: seq<Column>,
                                         limits: Limits, taken: seq<Cell>)
    requires short <= long
    requires |taken| <= |wire| && RowBytes(taken) <= limits.maximumRowBytes
    ensures Settled(ValuesAt(short, pos, wire, columns, limits, taken), ValuesAt(long, pos, wire, columns, limits, taken))
    decreases |wire| - |taken|
  {
    hide CellAt, ValuesAt;
    ValuesStep(short, pos, wire, columns, limits, taken);
    ValuesStep(long, pos, wire, columns, limits, taken);
    if |taken| < |wire| && wire[|taken|] < |columns| {
      var column, budget := columns[wire[|taken|]], limits.maximumRowBytes - RowBytes(taken);
      CellSettled(short, long, pos, column, limits, budget);
      var cell := CellAt(short, pos, column, limits, budget);
      if cell.Got? {
        ValuesSettled(short, long, cell.next, wire, columns, limits, taken + [cell.value]);
      }
    }
  }

  lemma RowDataSettled(short: Bytes, long: Bytes, pos: nat, wire: seq<nat>, columns: seq<Column>, limits: Limits)
    requires short <= long
    ensures Settled(RowDataAt(short, pos, wire, columns, limits), RowDataAt(long, pos, wire, columns, limits))
  {
    hide ValuesAt;
    ValuesSettled(short, long, pos + 1, wire, columns, limits, []);
  }
}
