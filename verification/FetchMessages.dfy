/**
 The messages of a fetch response that are not rows: the end-of-call error, return parameters, a
 status, and the server piggyback. Each is a run of fields, most of them only stepped over.
 */
module FetchMessages {
  import opened ByteBuffer
  import opened Protocol

  const MESSAGE_ERROR: byte := 4
  const MESSAGE_PARAMETER: byte := 8
  const MESSAGE_STATUS: byte := 9
  const MESSAGE_SERVER_PIGGYBACK: byte := 23
  const MESSAGE_END_OF_REQUEST: byte := 29

  const ERROR_TRAILER_VERSION := 14
  const MAX_TEXT_BYTES := 65535
  const MAX_BATCH_ERRORS := 65535
  const MAX_RETURN_PARAMETERS := 4096
  const MAX_REPORT_ENTRIES := 1024
  const MAX_REPORT_BYTES := 65536

  /** A field that is stepped over. */
  datatype Field =
    | Integer(width: nat)               // a universal integer
    | Raw(count: nat)                   // fixed bytes
    | Text(maximum: nat)                // a length-prefixed value
    | Announced(limit: Option<nat>)     // a size, and when it is not zero a length-prefixed value
    | Counted                           // a size, then that many bytes

  function FieldAt(data: Bytes, pos: nat, field: Field): (r: Read<()>)
    ensures r.Got? ==> pos <= r.next && (pos <= |data| ==> r.next <= |data|)
  {
    match field
    case Integer(width) =>
      var (_, next) :- UniversalAt(data, pos, width);
      Got((), next)
    case Raw(count) =>
      var (_, next) :- RawAt(data, pos, count);
      Got((), next)
    case Text(maximum) =>
      var (_, next) :- LengthPrefixedAt(data, pos, maximum);
      Got((), next)
    case Announced(limit) =>
      var (size, next) :- UB2At(data, pos);
      if size == 0 then Got((), next)
      else
        var (_, end) :- LengthPrefixedAt(data, next, if limit.Some? then limit.value else size);
        Got((), end)
    case Counted =>
      var (size, next) :- UB2At(data, pos);
      var (_, end) :- RawAt(data, next, size);
      Got((), end)
  }

  function SkipAt(data: Bytes, pos: nat, fields: seq<Field>): (r: Read<()>)
    ensures r.Got? ==> pos <= r.next && (pos <= |data| ==> r.next <= |data|)
    decreases |fields|
  {
    if fields == [] then Got((), pos)
    else
      var (_, next) :- FieldAt(data, pos, fields[0]);
      SkipAt(data, next, fields[1..])
  }

  function Repeat(fields: seq<Field>, count: nat): seq<Field> {
    if count == 0 then [] else fields + Repeat(fields, count - 1)
  }

  /** The entries of a packed array, each with a size of its own in the long form, which also ends in a
      byte. */
  function PackedEntries(width: nat, count: nat, marker: byte): seq<Field> {
    if marker == LONG_LENGTH_INDICATOR then Repeat([Integer(4), Integer(width)], count) + [Raw(1)]
    else Repeat([Integer(width)], count)
  }

  function PackedArrayAt(data: Bytes, pos: nat, width: nat): (r: Read<()>)
    ensures r.Got? ==> pos < r.next <= |data|
  {
    var (count, p1) :- UniversalAt(data, pos, width);
    if count > MAX_BATCH_ERRORS then Failed(LimitExceeded)
    else if count == 0 then Got((), p1)
    else
      var (marker, p2) :- ByteAt(data, p1);
      SkipAt(data, p2, PackedEntries(width, count, marker))
  }

  function BatchMessagesAt(data: Bytes, pos: nat): (r: Read<()>)
    ensures r.Got? ==> pos < r.next <= |data|
  {
    var (count, next) :- UB2At(data, pos);
    if count == 0 then Got((), next)
    else SkipAt(data, next, [Raw(1)] + Repeat([Integer(2), Text(MAX_TEXT_BYTES), Raw(2)], count))
  }

  /** What an end-of-call says: zero for success, 1403 when no row is left. */
  datatype ErrorInfo = ErrorInfo(number: nat, cursorId: nat, currentRow: nat, rowCount: nat, text: Option<Bytes>)

  function ErrorTextAt(data: Bytes, pos: nat, number: nat): (r: Read<Option<Bytes>>)
    ensures r.Got? ==> pos <= r.next && (pos <= |data| ==> r.next <= |data|)
  {
    if number == 0 then Got(None, pos)
    else
      var (text, next) :- LengthPrefixedAt(data, pos, MAX_TEXT_BYTES);
      if text.None? then Failed(Malformed) else Got(text, next)
  }

  /** The fields up to the batch arrays: the current row and the cursor among them. */
  function ErrorHeadAt(data: Bytes, pos: nat): (r: Read<(nat, nat)>)
    ensures r.Got? ==> pos < r.next <= |data|
  {
    var (message, p1) :- ByteAt(data, pos);
    if message != MESSAGE_ERROR then Failed(Malformed)
    else
      var (_, p2) :- SkipAt(data, p1, [Integer(4), Integer(2)]);
      var (currentRow, p3) :- UB4At(data, p2);
      var (_, p4) :- SkipAt(data, p3, [Integer(2), Integer(2), Integer(2)]);
      var (cursorId, p5) :- UB4At(data, p4);
      var (_, p6) :- SkipAt(data, p5,
        [Integer(4), Raw(6), Integer(4), Integer(2), Raw(1), Integer(4), Integer(2), Integer(4), Raw(1), Raw(1),
         Integer(2), Integer(4)]);
      Got((currentRow, cursorId), p6)
  }

  function ErrorArraysAt(data: Bytes, pos: nat): (r: Read<()>)
    ensures r.Got? ==> pos < r.next <= |data|
  {
    var (logicalRowid, p1) :- UB4At(data, pos);
    var (_, p2) :- SkipAt(data, p1, if logicalRowid != 0 then [Text(MAX_TEXT_BYTES)] else []);
    var (_, p3) :- PackedArrayAt(data, p2, 2);
    var (_, p4) :- PackedArrayAt(data, p3, 4);
    BatchMessagesAt(data, p4)
  }

  function ErrorAt(data: Bytes, pos: nat, version: nat): (r: Read<ErrorInfo>)
    ensures r.Got? ==> pos < r.next <= |data|
  {
    var (head, p1) :- ErrorHeadAt(data, pos);
    var (_, p2) :- ErrorArraysAt(data, p1);
    var (number, p3) :- UB4At(data, p2);
    var (rowCount, p4) :- UniversalAt(data, p3, 8);
    var (_, p5) :- SkipAt(data, p4, if version >= ERROR_TRAILER_VERSION then [Integer(4), Integer(4)] else []);
    var (text, p6) :- ErrorTextAt(data, p5, number);
    Got(ErrorInfo(number, head.1, head.0, rowCount, text), p6)
  }

  function ParameterAt(data: Bytes, pos: nat): (r: Read<()>)
    ensures r.Got? ==> pos < r.next <= |data|
  {
    var (message, p1) :- ByteAt(data, pos);
    if message != MESSAGE_PARAMETER then Failed(Malformed)
    else
      var (count, p2) :- UB2At(data, p1);
      if count > MAX_RETURN_PARAMETERS then Failed(LimitExceeded)
      else
        var (_, p3) :- SkipAt(data, p2, Repeat([Integer(4)], count) + [Counted]);
        var (pairs, p4) :- UB2At(data, p3);
        if pairs > MAX_RETURN_PARAMETERS then Failed(LimitExceeded)
        else SkipAt(data, p4, Repeat([Announced(None), Announced(None), Integer(2)], pairs) + [Counted])
  }

  function StatusAt(data: Bytes, pos: nat): (r: Read<()>)
    ensures r.Got? ==> pos < r.next <= |data|
  {
    var (_, p1) :- ByteAt(data, pos);
    SkipAt(data, p1, [Integer(4), Integer(2)])
  }

  function PiggybackAt(data: Bytes, pos: nat): (r: Read<()>)
    ensures r.Got? ==> pos < r.next <= |data|
  {
    var (message, p1) :- ByteAt(data, pos);
    if message != MESSAGE_SERVER_PIGGYBACK then Failed(Malformed)
    else
      var (opcode, p2) :- ByteAt(data, p1);
      if opcode != 5 then Failed(Unsupported)
      else
        var (_, p3) :- SkipAt(data, p2, [Integer(2), Raw(1)]);
        var (elements, p4) :- UB2At(data, p3);
        if elements > MAX_REPORT_ENTRIES then Failed(LimitExceeded)
        else
          var entry := [Announced(Some(MAX_REPORT_BYTES)), Announced(Some(MAX_REPORT_BYTES)), Integer(2)];
          var (_, p5) :- SkipAt(data, p4, [Raw(1)] + Repeat(entry, elements));
          var (change, p6) :- UB4At(data, p5);
          if change != 0 then Failed(Unsupported) else Got((), p6)
  }

  // ----- none of them depends on the bytes after it

  lemma FieldSettled(short: Bytes, long: Bytes, pos: nat, field: Field)
    requires short <= long
    ensures Settled(FieldAt(short, pos, field), FieldAt(long, pos, field))
  {
    hide UniversalAt, LengthPrefixedAt, RawAt;
    match field
    case Integer(width) => UniversalSettled(short, long, pos, width);
    case Raw(count) => RawSettled(short, long, pos, count);
    case Text(maximum) => LengthPrefixedSettled(short, long, pos, maximum);
    case Announced(limit) =>
      UniversalSettled(short, long, pos, 2);
      var size := UB2At(short, pos);
      if size.Got? {
        LengthPrefixedSettled(short, long, size.next, if limit.Some? then limit.value else size.value);
      }
    case Counted =>
      UniversalSettled(short, long, pos, 2);
      var size := UB2At(short, pos);
      if size.Got? {
        RawSettled(short, long, size.next, size.value);
      }
  }

  lemma {:induction false} SkipSettled(short: Bytes, long: Bytes, pos: nat, fields: seq<Field>)
    requires short <= long
    ensures Settled(SkipAt(short, pos, fields), SkipAt(long, pos, fields))
    decreases |fields|
  {
    hide FieldAt;
    if fields != [] {
      FieldSettled(short, long, pos, fields[0]);
      var field := FieldAt(short, pos, fields[0]);
      if field.Got? {
        SkipSettled(short, long, field.next, fields[1..]);
      }
    }
  }

  lemma PackedArraySettled(short: Bytes, long: Bytes, pos: nat, width: nat)
    requires short <= long
    ensures Settled(PackedArrayAt(short, pos, width), PackedArrayAt(long, pos, width))
  {
    hide UniversalAt, SkipAt, PackedEntries;
    UniversalSettled(short, long, pos, width);
    var count := UniversalAt(short, pos, width);
    if count.Got? {
      var marker := ByteAt(short, count.next);
      if marker.Got? {
        SkipSettled(short, long, marker.next, PackedEntries(width, count.value, marker.value));
      }
    }
  }

  lemma BatchMessagesSettled(short: Bytes, long: Bytes, pos: nat)
    requires short <= long
    ensures Settled(BatchMessagesAt(short, pos), BatchMessagesAt(long, pos))
  {
    hide UniversalAt, SkipAt, Repeat;
    UniversalSettled(short, long, pos, 2);
    var count := UB2At(short, pos);
    if count.Got? {
      SkipSettled(short, long, count.next,
        [Raw(1)] + Repeat([Integer(2), Text(MAX_TEXT_BYTES), Raw(2)], count.value));
    }
  }

  lemma ErrorTextSettled(short: Bytes, long: Bytes, pos: nat, number: nat)
    requires short <= long
    ensures Settled(ErrorTextAt(short, pos, number), ErrorTextAt(long, pos, number))
  {
    hide LengthPrefixedAt;
    LengthPrefixedSettled(short, long, pos, MAX_TEXT_BYTES);
  }

  lemma ErrorHeadSettled(short: Bytes, long: Bytes, pos: nat)
    requires short <= long
    ensures Settled(ErrorHeadAt(short, pos), ErrorHeadAt(long, pos))
  {
    hide UniversalAt, SkipAt;
    var p2 := SkipAt(short, pos + 1, [Integer(4), Integer(2)]);
    SkipSettled(short, long, pos + 1, [Integer(4), Integer(2)]);
    if p2.Got? {
      UniversalSettled(short, long, p2.next, 4);
      var p3 := UB4At(short, p2.next);
      if p3.Got? {
        SkipSettled(short, long, p3.next, [Integer(2), Integer(2), Integer(2)]);
        var p4 := SkipAt(short, p3.next, [Integer(2), Integer(2), Integer(2)]);
        if p4.Got? {
          UniversalSettled(short, long, p4.next, 4);
          var p5 := UB4At(short, p4.next);
          if p5.Got? {
            SkipSettled(short, long, p5.next,
              [Integer(4), Raw(6), Integer(4), Integer(2), Raw(1), Integer(4), Integer(2), Integer(4), Raw(1), Raw(1),
               Integer(2), Integer(4)]);
          }
        }
      }
    }
  }

  lemma ErrorArraysSettled(short: Bytes, long: Bytes, pos: nat)
    requires short <= long
    ensures Settled(ErrorArraysAt(short, pos), ErrorArraysAt(long, pos))
  {
    hide UniversalAt, SkipAt, PackedArrayAt, BatchMessagesAt;
    UniversalSettled(short, long, pos, 4);
    var p1 := UB4At(short, pos);
    if p1.Got? {
      var rowid := if p1.value != 0 then [Text(MAX_TEXT_BYTES)] else [];
      SkipSettled(short, long, p1.next, rowid);
      var p2 := SkipAt(short, p1.next, rowid);
      if p2.Got? {
        PackedArraySettled(short, long, p2.next, 2);
        var p3 := PackedArrayAt(short, p2.next, 2);
        if p3.Got? {
          PackedArraySettled(short, long, p3.next, 4);
          var p4 := PackedArrayAt(short, p3.next, 4);
          if p4.Got? {
            BatchMessagesSettled(short, long, p4.next);
          }
        }
      }
    }
  }

  lemma ErrorSettled(short: Bytes, long: Bytes, pos: nat, version: nat)
    requires short <= long
    ensures Settled(ErrorAt(short, pos, version), ErrorAt(long, pos, version))
  {
    hide UniversalAt, SkipAt, ErrorHeadAt, ErrorArraysAt, ErrorTextAt;
    ErrorHeadSettled(short, long, pos);
    var p1 := ErrorHeadAt(short, pos);
    if p1.Got? {
      ErrorArraysSettled(short, long, p1.next);
      var p2 := ErrorArraysAt(short, p1.next);
      if p2.Got? {
        UniversalSettled(short, long, p2.next, 4);
        var p3 := UB4At(short, p2.next);
        if p3.Got? {
          UniversalSettled(short, long, p3.next, 8);
          var p4 := UniversalAt(short, p3.next, 8);
          if p4.Got? {
            var trailer := if version >= ERROR_TRAILER_VERSION then [Integer(4), Integer(4)] else [];
            SkipSettled(short, long, p4.next, trailer);
            var p5 := SkipAt(short, p4.next, trailer);
            if p5.Got? {
              ErrorTextSettled(short, long, p5.next, p3.value);
            }
          }
        }
      }
    }
  }

  lemma ParameterSettled(short: Bytes, long: Bytes, pos: nat)
    requires short <= long
    ensures Settled(ParameterAt(short, pos), ParameterAt(long, pos))
  {
    hide UniversalAt, SkipAt, Repeat;
    UniversalSettled(short, long, pos + 1, 2);
    var p2 := UB2At(short, pos + 1);
    if p2.Got? {
      var slots := Repeat([Integer(4)], p2.value) + [Counted];
      SkipSettled(short, long, p2.next, slots);
      var p3 := SkipAt(short, p2.next, slots);
      if p3.Got? {
        UniversalSettled(short, long, p3.next, 2);
        var p4 := UB2At(short, p3.next);
        if p4.Got? {
          SkipSettled(short, long, p4.next,
            Repeat([Announced(None), Announced(None), Integer(2)], p4.value) + [Counted]);
        }
      }
    }
  }

  lemma StatusSettled(short: Bytes, long: Bytes, pos: nat)
    requires short <= long
    ensures Settled(StatusAt(short, pos), StatusAt(long, pos))
  {
    hide SkipAt;
    SkipSettled(short, long, pos + 1, [Integer(4), Integer(2)]);
  }

  lemma PiggybackSettled(short: Bytes, long: Bytes, pos: nat)
    requires short <= long
    ensures Settled(PiggybackAt(short, pos), PiggybackAt(long, pos))
  {
    hide UniversalAt, SkipAt, Repeat;
    SkipSettled(short, long, pos + 2, [Integer(2), Raw(1)]);
    var p3 := SkipAt(short, pos + 2, [Integer(2), Raw(1)]);
    if p3.Got? {
      UniversalSettled(short, long, p3.next, 2);
      var p4 := UB2At(short, p3.next);
      if p4.Got? {
        var entry := [Announced(Some(MAX_REPORT_BYTES)), Announced(Some(MAX_REPORT_BYTES)), Integer(2)];
        var report := [Raw(1)] + Repeat(entry, p4.value);
        SkipSettled(short, long, p4.next, report);
        var p5 := SkipAt(short, p4.next, report);
        if p5.Got? {
          UniversalSettled(short, long, p5.next, 4);
        }
      }
    }
  }
}
