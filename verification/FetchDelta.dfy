/**
 The server's side of row compression, and the proof that decoding undoes it: a row written in full, as
 the columns a header selects, or as the columns a continuation marker names, decodes to that row.
 */
module FetchDelta {
  import opened Arithmetic
  import opened ByteBuffer
  import opened FetchBudget
  import opened FetchDecoder
  import opened FetchMessages
  import opened Protocol
  import opened RowFormat

  // ----- bitmaps

  function Bit(on: bool): (bit: nat)
    ensures bit <= 1
  {
    if on then 1 else 0
  }

  /** The bits of columns `first` to `first + count - 1`, the first lowest. */
  function BitsFrom(columns: seq<nat>, first: nat, count: nat): (bits: nat)
    decreases count
  {
    if count == 0 then 0 else Bit(first in columns) + 2 * BitsFrom(columns, first + 1, count - 1)
  }

  function BitmapByte(columns: seq<nat>, first: nat): (b: byte) {
    BitsBelow(columns, first, 8);
    BitsFrom(columns, first, 8)
  }

  lemma {:induction false} BitsBelow(columns: seq<nat>, first: nat, count: nat)
    ensures BitsFrom(columns, first, count) < TwoTo(count)
    ensures count == 8 ==> TwoTo(count) == 256
    decreases count
  {
    if count > 0 {
      BitsBelow(columns, first + 1, count - 1);
    }
    assert TwoTo(4) == 16;
  }

  function Bitmap(columns: seq<nat>, size: nat): (bitmap: Bytes)
    ensures |bitmap| == size
  {
    seq(size, index requires 0 <= index < size => BitmapByte(columns, 8 * index))
  }

  function BitAt(value: nat, bit: nat): nat
    requires bit < 8
  {
    value / Power2(bit) % 2
  }

  lemma {:induction false} BitFrom(columns: seq<nat>, first: nat, count: nat, bit: nat)
    requires bit < count <= 8
    ensures BitAt(BitsFrom(columns, first, count), bit) == Bit(first + bit in columns)
    decreases count
  {
    hide BitAt;
    var bits, rest := BitsFrom(columns, first, count), BitsFrom(columns, first + 1, count - 1);
    LowBit(Bit(first in columns), rest);
    if bit > 0 {
      BitFrom(columns, first + 1, count - 1, bit - 1);
      HalveFirst(bits, rest, bit);
    }
  }

  lemma LowBit(bit: nat, rest: nat)
    requires bit <= 1
    ensures (bit + 2 * rest) / 2 == rest && BitAt(bit + 2 * rest, 0) == bit
  {
    assert Power2(0) == 1;
  }

  lemma HalveFirst(bits: nat, rest: nat, bit: nat)
    requires 0 < bit < 8 && bits / 2 == rest
    ensures BitAt(bits, bit) == BitAt(rest, bit - 1)
  {
    DivideTwice(bits, 2, Power2(bit - 1));
  }

  lemma BitOfBitmap(columns: seq<nat>, size: nat, column: nat)
    requires column / 8 < size
    ensures BitSet(Bitmap(columns, size), column) <==> column in columns
  {
    BitFrom(columns, 8 * (column / 8), 8, column % 8);
    assert column == 8 * (column / 8) + column % 8;
  }

  lemma {:induction false} SelectedOfBitmap(columns: seq<nat>, size: nat, count: nat, chosen: nat)
    requires Increasing(columns) && BitmapSize(count) <= size
    requires CountsBelow(columns, count, chosen)
    ensures SelectedColumns(Bitmap(columns, size), count) == columns[..chosen]
    decreases count
  {
    hide BitSet, Bitmap;
    if count == 0 {
      assert columns != [] ==> 0 <= columns[0];
      assert chosen == 0;
    } else {
      BitOfBitmap(columns, size, count - 1);
      assert SelectedColumns(Bitmap(columns, size), count)
          == SelectedColumns(Bitmap(columns, size), count - 1) + (if count - 1 in columns then [count - 1] else []);
      if chosen > 0 && columns[chosen - 1] == count - 1 {
        SelectedOfBitmap(columns, size, count - 1, chosen - 1);
        assert columns[..chosen] == columns[..chosen - 1] + [count - 1];
      } else {
        assert count - 1 !in columns by { NotSelected(columns, count - 1, chosen); }
        SelectedOfBitmap(columns, size, count - 1, chosen);
      }
    }
  }

  lemma SelectedRoundTrip(columns: seq<nat>, count: nat)
    requires Increasing(columns) && Within(columns, count)
    ensures SelectedColumns(Bitmap(columns, BitmapSize(count)), count) == columns
  {
    SelectedOfBitmap(columns, BitmapSize(count), count, |columns|);
    assert columns[..|columns|] == columns;
  }

  // ----- row headers

  datatype HeaderFields = HeaderFields(flags: byte, requests: nat, iteration: nat, iterations: nat, buffer: nat, rowid: Bytes) {
    predicate Valid() {
      requests < 0x1_0000 && iteration < 0x1_0000_0000 && iterations < 0x1_0000_0000 && buffer < 0x1_0000
      && |rowid| < 0x1_0000_0000
    }
  }

  function FieldBytes(header: HeaderFields): Bytes {
    [MESSAGE_ROW_HEADER] + [header.flags] + Universal(header.requests, 2) + Universal(header.iteration, 4)
    + Universal(header.iterations, 4) + Universal(header.buffer, 2)
  }

  /** A size and a value of that size, or a zero size alone. */
  function SizedBytes(value: Bytes): Bytes {
    if value == [] then Universal(0, 4) else Universal(|value|, 4) + LengthPrefixed(Some(value))
  }

  function SelectionBytes(columnCount: nat, selection: Option<seq<nat>>): Bytes {
    SizedBytes(if selection.Some? then Bitmap(selection.value, BitmapSize(columnCount)) else [])
  }

  function HeaderBytes(header: HeaderFields, columnCount: nat, selection: Option<seq<nat>>): Bytes {
    FieldBytes(header) + SelectionBytes(columnCount, selection) + SizedBytes(header.rowid)
  }

  lemma SmallPowers()
    ensures Pow256(2) == 0x1_0000 && Pow256(4) == 0x1_0000_0000
  {
    Pow256Four();
  }

  /** Where each field of a header stands. */
  lemma FieldPlaces(data: Bytes, pos: nat, header: HeaderFields)
    requires header.Valid() && Holds(data, pos, FieldBytes(header))
    ensures ByteAt(data, pos) == Got(MESSAGE_ROW_HEADER, pos + 1) && ByteAt(data, pos + 1) == Got(header.flags, pos + 2)
    ensures var p2 := pos + 2;
      var p3 := p2 + |Universal(header.requests, 2)|;
      var p4 := p3 + |Universal(header.iteration, 4)|;
      var p5 := p4 + |Universal(header.iterations, 4)|;
      && Holds(data, p2, Universal(header.requests, 2)) && Holds(data, p3, Universal(header.iteration, 4))
      && Holds(data, p4, Universal(header.iterations, 4)) && Holds(data, p5, Universal(header.buffer, 2))
      && pos + |FieldBytes(header)| == p5 + |Universal(header.buffer, 2)|
  {
    hide Universal;
    var b0, b1 := [MESSAGE_ROW_HEADER], [header.flags];
    var b2, b3 := Universal(header.requests, 2), Universal(header.iteration, 4);
    var b4, b5 := Universal(header.iterations, 4), Universal(header.buffer, 2);
    HoldsSplit(data, pos, b0 + b1 + b2 + b3 + b4, b5);
    HoldsSplit(data, pos, b0 + b1 + b2 + b3, b4);
    HoldsSplit(data, pos, b0 + b1 + b2, b3);
    HoldsSplit(data, pos, b0 + b1, b2);
    HoldsSplit(data, pos, b0, b1);
    hide Holds;
    FirstByte(data, pos, MESSAGE_ROW_HEADER);
    FirstByte(data, pos + 1, header.flags);
  }

  lemma FirstByte(data: Bytes, pos: nat, value: byte)
    requires Holds(data, pos, [value])
    ensures ByteAt(data, pos) == Got(value, pos + 1)
  {
    assert data[pos] == data[pos..pos + 1][0];
  }

  lemma FieldsRoundTrip(data: Bytes, pos: nat, header: HeaderFields)
    requires header.Valid() && Holds(data, pos, FieldBytes(header))
    ensures HeaderFieldsAt(data, pos) == Got((), pos + |FieldBytes(header)|)
  {
    hide Universal, UniversalAt, Pow256, FieldBytes, Holds, ByteAt;
    FieldPlaces(data, pos, header);
    SmallPowers();
    var p3 := pos + 2 + |Universal(header.requests, 2)|;
    var p4 := p3 + |Universal(header.iteration, 4)|;
    var p5 := p4 + |Universal(header.iterations, 4)|;
    UniversalRoundTrip(data, pos + 2, header.requests, 2, 2);
    UniversalRoundTrip(data, p3, header.iteration, 4, 4);
    UniversalRoundTrip(data, p4, header.iterations, 4, 4);
    UniversalRoundTrip(data, p5, header.buffer, 2, 2);
  }

  lemma SizedRoundTrip(data: Bytes, pos: nat, value: Bytes)
    requires |value| < 0x1_0000_0000 && Holds(data, pos, SizedBytes(value))
    ensures UB4At(data, pos) == Got(|value|, pos + |Universal(|value|, 4)|)
    ensures value != [] ==>
      LengthPrefixedAt(data, pos + |Universal(|value|, 4)|, |value|) == Got(Some(value), pos + |SizedBytes(value)|)
  {
    hide Universal, UniversalAt, LengthPrefixed, LengthPrefixedAt;
    SmallPowers();
    if value == [] {
      UniversalRoundTrip(data, pos, 0, 4, 4);
    } else {
      HoldsSplit(data, pos, Universal(|value|, 4), LengthPrefixed(Some(value)));
      UniversalRoundTrip(data, pos, |value|, 4, 4);
      LengthPrefixedRoundTrip(data, pos + |Universal(|value|, 4)|, Some(value), |value|);
    }
  }

  lemma SelectionRoundTrip(data: Bytes, pos: nat, columnCount: nat, selection: Option<seq<nat>>)
    requires 0 < columnCount <= 4096
    requires selection.Some? ==> Increasing(selection.value) && Within(selection.value, columnCount)
    requires Holds(data, pos, SelectionBytes(columnCount, selection))
    ensures HeaderSelectionAt(data, pos, columnCount) == Got(selection, pos + |SelectionBytes(columnCount, selection)|)
  {
    hide UniversalAt, LengthPrefixedAt, SelectedColumns, Bitmap;
    if selection.Some? {
      SizedRoundTrip(data, pos, Bitmap(selection.value, BitmapSize(columnCount)));
      SelectedRoundTrip(selection.value, columnCount);
    } else {
      SizedRoundTrip(data, pos, []);
    }
  }

  lemma RowidRoundTrip(data: Bytes, pos: nat, rowid: Bytes)
    requires |rowid| < 0x1_0000_0000 && Holds(data, pos, SizedBytes(rowid))
    ensures HeaderRowidAt(data, pos) == Got((), pos + |SizedBytes(rowid)|)
  {
    hide UniversalAt, LengthPrefixedAt;
    SizedRoundTrip(data, pos, rowid);
  }

  lemma HeaderRoundTrip(data: Bytes, pos: nat, header: HeaderFields, columnCount: nat, selection: Option<seq<nat>>)
    requires header.Valid() && 0 < columnCount <= 4096
    requires selection.Some? ==> Increasing(selection.value) && Within(selection.value, columnCount)
    requires Holds(data, pos, HeaderBytes(header, columnCount, selection))
    ensures RowHeaderAt(data, pos, columnCount) == Got(selection, pos + |HeaderBytes(header, columnCount, selection)|)
    ensures data[pos] == MESSAGE_ROW_HEADER
  {
    hide HeaderFieldsAt, HeaderSelectionAt, HeaderRowidAt, SelectionBytes, SizedBytes, FieldBytes;
    var fields, bits, rowid := FieldBytes(header), SelectionBytes(columnCount, selection), SizedBytes(header.rowid);
    HoldsSplit(data, pos, fields + bits, rowid);
    HoldsSplit(data, pos, fields, bits);
    FieldsRoundTrip(data, pos, header);
    SelectionRoundTrip(data, pos + |fields|, columnCount, selection);
    RowidRoundTrip(data, pos + |fields| + |bits|, header.rowid);
    HeaderStart(data, pos, columnCount);
  }

  lemma HeaderStart(data: Bytes, pos: nat, columnCount: nat)
    requires RowHeaderAt(data, pos, columnCount).Got?
    ensures data[pos] == MESSAGE_ROW_HEADER
  {
    hide UniversalAt, HeaderSelectionAt, HeaderRowidAt;
  }

  // ----- continuation markers

  function ClassicBytes(columns: seq<nat>, columnCount: nat): Bytes
    requires |columns| < 0x1_0000
  {
    [MESSAGE_ROW_CONTINUATION] + [|columns| % 256, |columns| / 256] + Bitmap(columns, BitmapSize(columnCount))
  }

  function UniversalBytes(columns: seq<nat>, columnCount: nat): Bytes {
    [MESSAGE_ROW_CONTINUATION] + Universal(|columns|, 2) + Bitmap(columns, BitmapSize(columnCount))
  }

  lemma BitmapRoundTrip(data: Bytes, pos: nat, columns: seq<nat>, columnCount: nat)
    requires Increasing(columns) && Within(columns, columnCount) && |columns| <= columnCount
    requires Holds(data, pos, Bitmap(columns, BitmapSize(columnCount)))
    ensures BitmapAt(data, pos, |columns|, columnCount) == Got(Some(columns), pos + BitmapSize(columnCount))
  {
    hide Bitmap, SelectedColumns;
    SelectedRoundTrip(columns, columnCount);
  }

  lemma {:induction false} IncreasingLength(columns: seq<nat>, count: nat)
    requires Increasing(columns) && Within(columns, count)
    ensures |columns| <= count
  {
    if columns != [] {
      IncreasingLength(columns[..|columns| - 1], columns[|columns| - 1]);
    }
  }

  lemma ClassicRoundTrip(data: Bytes, pos: nat, columns: seq<nat>, columnCount: nat)
    requires Increasing(columns) && Within(columns, columnCount) && columnCount <= 4096 && |columns| <= columnCount
    requires Holds(data, pos, ClassicBytes(columns, columnCount))
    ensures ContinuationAt(data, pos, columnCount) == Got(columns, pos + |ClassicBytes(columns, columnCount)|)
    ensures data[pos] == MESSAGE_ROW_CONTINUATION
  {
    hide BitmapAt, Bitmap, UniversalAt;
    var count := [|columns| % 256, |columns| / 256];
    var bits := Bitmap(columns, BitmapSize(columnCount));
    HoldsSplit(data, pos, [MESSAGE_ROW_CONTINUATION] + count, bits);
    HoldsSplit(data, pos, [MESSAGE_ROW_CONTINUATION], count);
    BitmapRoundTrip(data, pos + 3, columns, columnCount);
    assert data[pos + 1] == count[0] && data[pos + 2] == count[1];
  }

  /** The bits set among the lowest `count` of a byte. */
  function BitsSet(value: byte, count: nat): nat
    requires count <= 8
  {
    if count == 0 then 0 else BitsSet(value, count - 1) + value / Power2(count - 1) % 2
  }

  function PopCount(value: byte): nat {
    BitsSet(value, 8)
  }

  /** The columns of a selection below a bound. */
  function Below(columns: seq<nat>, bound: nat): set<nat> {
    set c | c in columns && c < bound
  }

  /** Nothing marks which of the two forms a continuation uses. More than 255 columns are written 2, high, low and
      the bitmap, and read in the classic form as the count 2 + 256 * high and a bitmap that starts with the low byte
      and lacks its last. They are taken for that form just when that bitmap bears that count out: the bits of the low
      byte, and the columns that are still below the column count once moved up by 8. */
  predicate TakenForClassic(columns: seq<nat>, columnCount: nat) {
    && 255 < |columns| <= columnCount
    && PopCount(|columns| % 256) + |Below(columns, columnCount - 8)| == 2 + 256 * (|columns| / 256)
  }

  /** A continuation in the universal form reads back if and only if it is not taken for one in the classic form; if
      it is, other columns are read, and a byte is left over. */
  lemma UniversalFormRoundTrip(data: Bytes, pos: nat, columns: seq<nat>, columnCount: nat)
    requires Increasing(columns) && Within(columns, columnCount) && 0 < columnCount <= 4096
    requires Holds(data, pos, UniversalBytes(columns, columnCount))
    requires Holds(data, pos + |UniversalBytes(columns, columnCount)|, [MESSAGE_ROW_DATA])
    ensures ContinuationAt(data, pos, columnCount) == Got(columns, pos + |UniversalBytes(columns, columnCount)|)
      <==> !TakenForClassic(columns, columnCount)
    ensures TakenForClassic(columns, columnCount) ==>
      ContinuationAt(data, pos, columnCount)
      == Got(MovedSelection(columns, columnCount), pos + |UniversalBytes(columns, columnCount)| - 1)
    ensures data[pos] == MESSAGE_ROW_CONTINUATION
  {
    hide Bitmap, UniversalAt, Universal, SelectedColumns, BitmapAt, TakenForClassic, MovedSelection;
    var count := Universal(|columns|, 2);
    var bits := Bitmap(columns, BitmapSize(columnCount));
    HoldsSplit(data, pos, [MESSAGE_ROW_CONTINUATION] + count, bits);
    HoldsSplit(data, pos, [MESSAGE_ROW_CONTINUATION], count);
    SmallPowers();
    IncreasingLength(columns, columnCount);
    UniversalRoundTrip(data, pos + 1, |columns|, 2, 2);
    BitmapRoundTrip(data, pos + 1 + |count|, columns, columnCount);
    ReadAsClassic(data, pos, columns, columnCount);
  }

  /** How the first bytes of a continuation in the universal form read in the classic one. */
  lemma ReadAsClassic(data: Bytes, pos: nat, columns: seq<nat>, columnCount: nat)
    requires Increasing(columns) && Within(columns, columnCount) && |columns| <= columnCount
    requires 0 < columnCount <= 4096
    requires Holds(data, pos, UniversalBytes(columns, columnCount))
    requires Holds(data, pos + |UniversalBytes(columns, columnCount)|, [MESSAGE_ROW_DATA])
    ensures pos + 3 <= |data|
    ensures var classic := BitmapAt(data, pos + 3, LittleEndian(data[pos + 1], data[pos + 2]), columnCount);
      && classic.Got?
      && (!TakenForClassic(columns, columnCount) ==> classic.value.None?)
      && (TakenForClassic(columns, columnCount) ==>
            classic == Got(Some(MovedSelection(columns, columnCount)), pos + |UniversalBytes(columns, columnCount)| - 1))
  {
    hide SelectedColumns, Bitmap, Universal, PopCount, Below;
    var count := Universal(|columns|, 2);
    var bits := Bitmap(columns, BitmapSize(columnCount));
    HoldsSplit(data, pos, [MESSAGE_ROW_CONTINUATION] + count, bits);
    HoldsSplit(data, pos, [MESSAGE_ROW_CONTINUATION], count);
    UniversalCountBytes(|columns|);
    assert data[pos + 1] == count[0];
    if columns == [] {
      assert data[pos + 2] == bits[0];
      EmptyBitmap(BitmapSize(columnCount));
      MarkerIsSelected(data, pos + 3, columnCount);
    } else {
      assert data[pos + 2] == count[1];
      if |columns| <= 255 {
        SelectedRoundTrip(columns, columnCount);
      } else {
        WideAsClassic(data, pos, columns, columnCount);
      }
    }
  }

  lemma WideAsClassic(data: Bytes, pos: nat, columns: seq<nat>, columnCount: nat)
    requires Increasing(columns) && Within(columns, columnCount) && 255 < |columns| <= columnCount <= 4096
    requires Holds(data, pos, [MESSAGE_ROW_CONTINUATION] + [2, |columns| / 256, |columns| % 256])
    requires Holds(data, pos + 4, Bitmap(columns, BitmapSize(columnCount)))
    ensures var classic := BitmapAt(data, pos + 3, 2 + 256 * (|columns| / 256), columnCount);
      && classic.Got?
      && (!TakenForClassic(columns, columnCount) ==> classic.value.None?)
      && (TakenForClassic(columns, columnCount) ==>
            classic == Got(Some(MovedSelection(columns, columnCount)), pos + 3 + BitmapSize(columnCount)))
  {
    hide SelectedColumns, Bitmap, PopCount, Below;
    var size, bits := BitmapSize(columnCount), Bitmap(columns, BitmapSize(columnCount));
    assert data[pos + 3] == |columns| % 256 by {
      assert data[pos + 3] == data[pos..pos + 4][3];
    }
    assert data[pos + 3..pos + 3 + size] == MovedBitmap(columns, columnCount);
    hide Holds, MovedBitmap;
    MovedCount(columns, columnCount, columnCount);
    IncreasingLength(MovedSelection(columns, columnCount), columnCount);
  }

  /** The bitmap of a wide selection as the classic form finds it, a byte early. */
  function MovedBitmap(columns: seq<nat>, columnCount: nat): Bytes
    requires columnCount > 0
  {
    [|columns| % 256] + Bitmap(columns, BitmapSize(columnCount))[..BitmapSize(columnCount) - 1]
  }

  /** The columns it is read as. */
  function MovedSelection(columns: seq<nat>, columnCount: nat): seq<nat>
    requires columnCount > 0
  {
    SelectedColumns(MovedBitmap(columns, columnCount), columnCount)
  }

  lemma {:induction false} MovedCount(columns: seq<nat>, columnCount: nat, bound: nat)
    requires 8 <= bound <= columnCount
    ensures |SelectedColumns(MovedBitmap(columns, columnCount), bound)|
         == PopCount(|columns| % 256) + |Below(columns, bound - 8)|
    decreases bound
  {
    hide Bitmap, BitSet, BitsSet, MovedBitmap;
    if bound == 8 {
      FirstByteCount(columns, columnCount, 8);
      assert Below(columns, 0) == {};
    } else {
      MovedCount(columns, columnCount, bound - 1);
      MovedBit(columns, columnCount, bound - 1);
      var before := Below(columns, bound - 9);
      assert Below(columns, bound - 8) == if bound - 9 in columns then before + {bound - 9} else before;
    }
  }

  /** A column past the first eight is selected just when the one eight below it was sent. */
  lemma MovedBit(columns: seq<nat>, columnCount: nat, column: nat)
    requires 8 <= column < columnCount
    ensures BitSet(MovedBitmap(columns, columnCount), column) <==> column - 8 in columns
  {
    hide Bitmap;
    BitOfBitmap(columns, BitmapSize(columnCount), column - 8);
  }

  /** Of the first eight those are whose bit is set in the low byte of the count. */
  lemma {:induction false} FirstByteCount(columns: seq<nat>, columnCount: nat, count: nat)
    requires count <= 8 <= columnCount
    ensures |SelectedColumns(MovedBitmap(columns, columnCount), count)| == BitsSet(|columns| % 256, count)
  {
    hide Bitmap;
    if count > 0 {
      FirstByteCount(columns, columnCount, count - 1);
    }
  }

  /** It never happens with at most 255 columns changed, or with at most 256 columns in all. */
  lemma NarrowFormsAreTold(columns: seq<nat>, columnCount: nat)
    requires |columns| <= 255 || columnCount <= 256
    ensures !TakenForClassic(columns, columnCount)
  {
    if 255 < |columns| <= columnCount <= 256 {
      EmptyByte();
      FewBelow(columns, columnCount - 8);
    }
  }

  lemma EmptyByte()
    ensures PopCount(0) == 0
  {
    assert BitsSet(0, 4) == 0;
  }

  lemma {:induction false} FewBelow(columns: seq<nat>, bound: nat)
    ensures |Below(columns, bound)| <= bound
  {
    if bound == 0 {
      assert Below(columns, 0) == {};
    } else {
      FewBelow(columns, bound - 1);
      assert Below(columns, bound) <= Below(columns, bound - 1) + {bound - 1};
      SubsetIsSmaller(Below(columns, bound), Below(columns, bound - 1) + {bound - 1});
    }
  }

  lemma {:induction false} SubsetIsSmaller(a: set<nat>, b: set<nat>)
    requires a <= b
    ensures |a| <= |b|
  {
    if a != {} {
      var x :| x in a;
      SubsetIsSmaller(a - {x}, b - {x});
    }
  }

  ghost predicate SameMembers(a: seq<nat>, firstA: nat, b: seq<nat>, firstB: nat, count: nat) {
    forall c :: firstA <= c < firstA + count ==> (c in a <==> c - firstA + firstB in b)
  }

  lemma {:induction false} SameBits(a: seq<nat>, firstA: nat, b: seq<nat>, firstB: nat, count: nat)
    requires SameMembers(a, firstA, b, firstB, count)
    ensures BitsFrom(a, firstA, count) == BitsFrom(b, firstB, count)
    decreases count
  {
    if count > 0 {
      SameBits(a, firstA + 1, b, firstB + 1, count - 1);
    }
  }

  /** The columns 0 to 256 and 264 of 272, and the columns they are taken for. */
  function Sent(): seq<nat> {
    seq(257, i => i) + [264]
  }

  function Misread(): seq<nat> {
    [1] + seq(257, i => i + 8)
  }

  lemma ShiftedBits(index: nat)
    requires 1 <= index < 34
    ensures BitmapByte(Misread(), 8 * index) == BitmapByte(Sent(), 8 * (index - 1))
  {
    forall column | 8 * index <= column < 8 * index + 8
      ensures column in Misread() <==> column - 8 in Sent()
    {
      if column <= 264 {
        assert Misread()[column - 7] == column;
        assert Sent()[column - 8] == column - 8;
      }
    }
    SameBits(Misread(), 8 * index, Sent(), 8 * (index - 1), 8);
  }

  lemma FirstMisreadByte()
    ensures BitmapByte(Misread(), 0) == 2
  {
    assert Misread()[0] == 1;
    SameBits(Misread(), 0, [1], 0, 8);
    SameBits([1], 2, [], 0, 6);
    NoBits(0, 6);
  }

  lemma MisreadBitmap()
    ensures [2] + Bitmap(Sent(), 34)[..33] == Bitmap(Misread(), 34)
  {
    hide BitmapByte, Sent, Misread;
    FirstMisreadByte();
    forall index | 1 <= index < 34
      ensures Bitmap(Misread(), 34)[index] == Bitmap(Sent(), 34)[index - 1]
    {
      ShiftedBits(index);
    }
  }

  /** It does happen: 258 changed columns of 272, written in the universal form, are read in the classic one, as
      other columns. */
  lemma UniversalFormAmbiguous()
    ensures Increasing(Sent()) && Within(Sent(), 272) && TakenForClassic(Sent(), 272)
    ensures var read := ContinuationAt(UniversalBytes(Sent(), 272) + [MESSAGE_ROW_DATA], 0, 272);
      read.Got? && read.value == Misread() != Sent()
  {
    hide Universal, Bitmap, SelectedColumns, TakenForClassic;
    var data := UniversalBytes(Sent(), 272) + [MESSAGE_ROW_DATA];
    UniversalCountBytes(258);
    MisreadBitmap();
    var bits := Bitmap(Sent(), 34);
    assert data == [MESSAGE_ROW_CONTINUATION, 2, 1, 2] + bits + [MESSAGE_ROW_DATA];
    assert data[3..37] == [2] + bits[..33];
    SelectedRoundTrip(Misread(), 272);
    assert Misread()[0] != Sent()[0];
    UniversalFormRoundTrip(data, 0, Sent(), 272);
  }

  lemma {:induction false} NoBits(first: nat, count: nat)
    ensures BitsFrom([], first, count) == 0
    decreases count
  {
    if count > 0 {
      NoBits(first + 1, count - 1);
    }
  }

  lemma EmptyBitmap(size: nat)
    ensures forall i :: 0 <= i < size ==> Bitmap([], size)[i] == 0
  {
    forall i | 0 <= i < size
      ensures Bitmap([], size)[i] == 0
    {
      NoBits(8 * i, 8);
    }
  }

  lemma MarkerIsSelected(data: Bytes, pos: nat, columnCount: nat)
    requires 0 < columnCount
    requires pos + BitmapSize(columnCount) <= |data|
    requires data[pos + BitmapSize(columnCount) - 1] == MESSAGE_ROW_DATA
    ensures var bitmap := data[pos..pos + BitmapSize(columnCount)];
      SelectedColumns(bitmap, columnCount) != []
  {
    var bitmap := data[pos..pos + BitmapSize(columnCount)];
    SelectedWhenSet(bitmap, columnCount, 8 * (BitmapSize(columnCount) - 1));
  }

  lemma UniversalCountBytes(count: nat)
    requires count <= 4096
    ensures count == 0 ==> Universal(count, 2) == [0]
    ensures 0 < count <= 255 ==> Universal(count, 2) == [1, count]
    ensures count > 255 ==> Universal(count, 2) == [2, count / 256, count % 256]
  {
    assert Pow256(1) == 256;
    if count > 255 {
      assert UniversalWidth(count, 2, 2) == 2;
      assert BytesOf(count / 256, 1) == [count / 256];
    } else if count > 0 {
      assert BytesOf(count, 1) == [count];
    }
  }

  // ----- values

  datatype Charset = Utf16(form: byte) | NoCharset

  /** A LOB cell as the server writes it. */
  datatype LobCell = LobCell(locator: Bytes, totalUnits: nat, chunk: nat, charset: Charset, prefix: Bytes) {
    predicate Valid(character: bool, limits: Limits) {
      var width := if character then 2 else 1;
      && limits.prefixUnits <= 32768 && limits.maximumContentBytes > 0
      && 0 < |locator| <= 4096
      && totalUnits <= limits.maximumContentBytes / width && totalUnits < 0x1_0000_0000_0000_0000
      && chunk < 0x1_0000_0000
      && (charset.Utf16? ==> 1 <= charset.form <= 2)
      && (charset.NoCharset? ==> totalUnits == 0)
      && |prefix| <= limits.prefixUnits * width && |prefix| % width == 0 && |prefix| / width <= totalUnits
    }
  }

  function CharsetBytes(charset: Charset): Bytes {
    match charset
    case Utf16(form) => [1] + Universal(2000, 2) + [form]
    case NoCharset => [0, 1]
  }

  function PrefixBytes(cell: LobCell, character: bool, limits: Limits): Bytes {
    if limits.prefixUnits == 0 then []
    else (if character then CharsetBytes(cell.charset) else []) + LengthPrefixed(Some(cell.prefix))
  }

  function LobBytes(cell: LobCell, character: bool, limits: Limits): Bytes {
    Universal(|cell.locator|, 4) + Universal(cell.totalUnits, 8) + Universal(cell.chunk, 4)
    + PrefixBytes(cell, character, limits) + LengthPrefixed(Some(cell.locator))
  }

  lemma Utf16RoundTrip(data: Bytes, pos: nat, form: byte, totalUnits: nat)
    requires (form == 1 || form == 2) && Holds(data, pos, [1] + Universal(2000, 2) + [form])
    ensures CharsetAt(data, pos, totalUnits) == Got((), pos + |[1] + Universal(2000, 2) + [form]|)
  {
    hide Universal, UniversalAt, Pow256;
    HoldsSplit(data, pos, [1] + Universal(2000, 2), [form]);
    HoldsSplit(data, pos, [1], Universal(2000, 2));
    SmallPowers();
    UniversalRoundTrip(data, pos + 1, 2000, 2, 2);
    FirstByte(data, pos, 1);
    FirstByte(data, pos + 1 + |Universal(2000, 2)|, form);
  }

  lemma CharsetRoundTrip(data: Bytes, pos: nat, cell: LobCell, limits: Limits)
    requires cell.Valid(true, limits) && Holds(data, pos, CharsetBytes(cell.charset))
    ensures CharsetAt(data, pos, cell.totalUnits) == Got((), pos + |CharsetBytes(cell.charset)|)
  {
    hide Universal, UniversalAt;
    match cell.charset
    case Utf16(form) => Utf16RoundTrip(data, pos, form, cell.totalUnits);
    case NoCharset =>
      assert data[pos] == CharsetBytes(cell.charset)[0] && data[pos + 1] == CharsetBytes(cell.charset)[1];
  }

  lemma PrefixRoundTrip(data: Bytes, pos: nat, cell: LobCell, character: bool, limits: Limits)
    requires cell.Valid(character, limits) && Holds(data, pos, PrefixBytes(cell, character, limits))
    ensures PrefixAt(data, pos, character, cell.totalUnits, limits) == Got((), pos + |PrefixBytes(cell, character, limits)|)
  {
    hide CharsetAt, LengthPrefixedAt, CharsetBytes, LengthPrefixed;
    if limits.prefixUnits != 0 {
      var charset := if character then CharsetBytes(cell.charset) else [];
      HoldsSplit(data, pos, charset, LengthPrefixed(Some(cell.prefix)));
      if character {
        CharsetRoundTrip(data, pos, cell, limits);
      }
      LengthPrefixedRoundTrip(data, pos + |charset|, Some(cell.prefix), limits.prefixUnits * (if character then 2 else 1));
    }
  }

  lemma EightBytes()
    ensures Pow256(8) == 0x1_0000_0000_0000_0000
  {
    Pow256Seven();
  }

  lemma LobRoundTrip(data: Bytes, pos: nat, cell: LobCell, character: bool, limits: Limits)
    requires cell.Valid(character, limits) && Holds(data, pos, LobBytes(cell, character, limits))
    ensures LobCellAt(data, pos, character, limits) == Got(true, pos + |LobBytes(cell, character, limits)|)
  {
    hide Universal, UniversalAt, PrefixAt, PrefixBytes, LengthPrefixedAt, LengthPrefixed;
    var b0, b1, b2 := Universal(|cell.locator|, 4), Universal(cell.totalUnits, 8), Universal(cell.chunk, 4);
    var b3, b4 := PrefixBytes(cell, character, limits), LengthPrefixed(Some(cell.locator));
    HoldsSplit(data, pos, b0 + b1 + b2 + b3, b4);
    HoldsSplit(data, pos, b0 + b1 + b2, b3);
    HoldsSplit(data, pos, b0 + b1, b2);
    HoldsSplit(data, pos, b0, b1);
    SmallPowers();
    EightBytes();
    UniversalRoundTrip(data, pos, |cell.locator|, 4, 4);
    UniversalRoundTrip(data, pos + |b0|, cell.totalUnits, 8, 8);
    UniversalRoundTrip(data, pos + |b0| + |b1|, cell.chunk, 4, 4);
    PrefixRoundTrip(data, pos + |b0| + |b1| + |b2|, cell, character, limits);
    LengthPrefixedRoundTrip(data, pos + |b0| + |b1| + |b2| + |b3|, Some(cell.locator), |cell.locator|);
  }

  /** The values a column can have: NULL where it carries none, a LOB's wire image, or a scalar that is not
      empty, which is NULL. */
  ghost predicate GoodCell(cell: Cell, column: Column, limits: Limits) {
    && (column.omitted ==> cell == None)
    && (cell.Some? ==>
          if column.IsLob() then IsLobImage(cell.value, column.oracleType == TYPE_CLOB, limits) else cell.value != [])
    && (column.IsLob() ==> limits.prefixUnits <= 32768 && limits.maximumContentBytes > 0)
  }

  ghost predicate IsLobImage(bytes: Bytes, character: bool, limits: Limits) {
    exists cell: LobCell :: cell.Valid(character, limits) && bytes == LobBytes(cell, character, limits)
  }

  function CellWire(cell: Cell, column: Column): Bytes {
    if column.IsLob() then (if cell.Some? then cell.value else [0]) else LengthPrefixed(cell)
  }

  lemma NullLobRoundTrip(data: Bytes, pos: nat, character: bool, limits: Limits)
    requires limits.prefixUnits <= 32768 && limits.maximumContentBytes > 0
    requires Holds(data, pos, [0])
    ensures LobCellAt(data, pos, character, limits) == Got(false, pos + 1)
  {
    hide UniversalAt, PrefixAt, LengthPrefixedAt;
    assert Universal(0, 4) == [0];
    SmallPowers();
    UniversalRoundTrip(data, pos, 0, 4, 4);
  }

  lemma CellRoundTrip(data: Bytes, pos: nat, cell: Cell, column: Column, limits: Limits, budget: nat)
    requires GoodCell(cell, column, limits) && CellBytes(cell) <= budget
    requires Holds(data, pos, CellWire(cell, column))
    ensures CellAt(data, pos, column, limits, budget) == Got(cell, pos + |CellWire(cell, column)|)
  {
    hide LengthPrefixed, LengthPrefixedAt, LobBytes, LobCellAt;
    var character := column.oracleType == TYPE_CLOB;
    if !column.IsLob() {
      LengthPrefixedRoundTrip(data, pos, cell, budget);
    } else if cell.None? {
      NullLobRoundTrip(data, pos, character, limits);
    } else {
      var lob: LobCell :| lob.Valid(character, limits) && cell.value == LobBytes(lob, character, limits);
      LobRoundTrip(data, pos, lob, character, limits);
    }
  }

  function WireValues(row: Row, wire: seq<nat>): (values: seq<Cell>)
    requires Within(wire, |row|)
    ensures |values| == |wire|
  {
    seq(|wire|, i requires 0 <= i < |wire| => row[wire[i]])
  }

  function ValueBytes(columns: seq<Column>, row: Row, wire: seq<nat>, from: nat): Bytes
    requires Within(wire, |row|) && |row| == |columns| && from <= |wire|
    decreases |wire| - from
  {
    if from == |wire| then []
    else CellWire(row[wire[from]], columns[wire[from]]) + ValueBytes(columns, row, wire, from + 1)
  }

  lemma {:induction false} WireBytesFit(row: Row, wire: seq<nat>, count: nat, bound: nat)
    requires Increasing(wire) && Within(wire, |row|) && count <= |wire| && bound <= |row|
    requires Within(wire[..count], bound)
    ensures RowBytes(WireValues(row, wire)[..count]) <= RowBytes(row[..bound])
    decreases count
  {
    if count > 0 {
      var last := wire[count - 1];
      assert wire[..count][count - 1] == last;
      WireBytesFit(row, wire, count - 1, last);
      WireValuesNext(row, wire, count);
      hide RowBytes, WireValues;
      CellFits(row, last, bound);
    }
  }

  lemma WireValuesNext(row: Row, wire: seq<nat>, count: nat)
    requires Within(wire, |row|) && 0 < count <= |wire|
    ensures RowBytes(WireValues(row, wire)[..count])
         == RowBytes(WireValues(row, wire)[..count - 1]) + CellBytes(row[wire[count - 1]])
  {
    hide RowBytes;
    var values := WireValues(row, wire);
    assert values[..count] == values[..count - 1] + [row[wire[count - 1]]];
    RowBytesAppend(values[..count - 1], row[wire[count - 1]]);
  }

  lemma CellFits(row: Row, column: nat, bound: nat)
    requires column < bound <= |row|
    ensures RowBytes(row[..column]) + CellBytes(row[column]) <= RowBytes(row[..bound])
  {
    hide RowBytes;
    assert row[..column + 1] == row[..column] + [row[column]];
    RowBytesAppend(row[..column], row[column]);
    RowBytesPrefix(row[..bound], column + 1);
    assert row[..bound][..column + 1] == row[..column + 1];
  }

  ghost predicate GoodCells(row: Row, columns: seq<Column>, limits: Limits) {
    |row| == |columns| && forall c :: 0 <= c < |columns| ==> GoodCell(row[c], columns[c], limits)
  }

  lemma {:induction false} ValuesRoundTrip(data: Bytes, pos: nat, columns: seq<Column>, limits: Limits, row: Row, wire: seq<nat>, from: nat)
    requires GoodCells(row, columns, limits) && RowBytes(row) <= limits.maximumRowBytes
    requires Increasing(wire) && Within(wire, |row|) && from <= |wire|
    requires RowBytes(WireValues(row, wire)[..from]) <= limits.maximumRowBytes
    requires Holds(data, pos, ValueBytes(columns, row, wire, from))
    ensures ValuesAt(data, pos, wire, columns, limits, WireValues(row, wire)[..from])
         == Got(WireValues(row, wire), pos + |ValueBytes(columns, row, wire, from)|)
    decreases |wire| - from
  {
    hide CellAt, CellWire, ValuesAt, RowBytes, GoodCell;
    var values := WireValues(row, wire);
    ValuesStep(data, pos, wire, columns, limits, values[..from]);
    if from == |wire| {
      assert values[..from] == values;
    } else {
      var cell, column := row[wire[from]], columns[wire[from]];
      HoldsSplit(data, pos, CellWire(cell, column), ValueBytes(columns, row, wire, from + 1));
      WireBytesFit(row, wire, from + 1, |row|);
      assert row[..|row|] == row;
      assert values[..from + 1] == values[..from] + [cell];
      RowBytesAppend(values[..from], cell);
      CellRoundTrip(data, pos, cell, column, limits, limits.maximumRowBytes - RowBytes(values[..from]));
      ValuesRoundTrip(data, pos + |CellWire(cell, column)|, columns, limits, row, wire, from + 1);
    }
  }

  function RowDataBytes(columns: seq<Column>, row: Row, wire: seq<nat>): Bytes
    requires Within(wire, |row|) && |row| == |columns|
  {
    [MESSAGE_ROW_DATA] + ValueBytes(columns, row, wire, 0)
  }

  lemma RowDataRoundTrip(data: Bytes, pos: nat, columns: seq<Column>, limits: Limits, row: Row, wire: seq<nat>)
    requires GoodCells(row, columns, limits) && RowBytes(row) <= limits.maximumRowBytes
    requires Increasing(wire) && Within(wire, |row|)
    requires Holds(data, pos, RowDataBytes(columns, row, wire))
    ensures data[pos] == MESSAGE_ROW_DATA
    ensures RowDataAt(data, pos, wire, columns, limits)
         == Got(WireValues(row, wire), pos + |RowDataBytes(columns, row, wire)|)
  {
    hide ValuesAt, ValueBytes, WireValues;
    HoldsSplit(data, pos, [MESSAGE_ROW_DATA], ValueBytes(columns, row, wire, 0));
    assert WireValues(row, wire)[..0] == [];
    assert RowBytes([]) == 0;
    ValuesRoundTrip(data, pos + 1, columns, limits, row, wire, 0);
  }
}
