/**
 A message reads the same wherever it stands: what is read from its bytes alone is read from any buffer that holds
 them, at the place where it holds them.
 */
module MessagePlaces {
  import opened ByteBuffer
  import opened FetchMessages
  import opened Protocol

  /** What was read from bytes alone is read where they are placed. */
  ghost predicate InPlace<T>(alone: Read<T>, placed: Read<T>, pos: nat) {
    alone.Got? ==> placed == Got(alone.value, pos + alone.next)
  }

  lemma ByteInPlace(data: Bytes, pos: nat, bytes: Bytes, k: nat)
    requires Holds(data, pos, bytes)
    ensures InPlace(ByteAt(bytes, k), ByteAt(data, pos + k), pos)
  {
    if k < |bytes| {
      assert data[pos + k] == data[pos..pos + |bytes|][k];
    }
  }

  lemma RawInPlace(data: Bytes, pos: nat, bytes: Bytes, k: nat, count: nat)
    requires Holds(data, pos, bytes)
    ensures InPlace(RawAt(bytes, k, count), RawAt(data, pos + k, count), pos)
  {
    if k + count <= |bytes| {
      var placed, alone := data[pos + k..pos + k + count], bytes[k..k + count];
      forall i | 0 <= i < count ensures placed[i] == alone[i] {
        assert data[pos + k + i] == data[pos..pos + |bytes|][k + i];
      }
      assert placed == alone;
    }
  }

  lemma UniversalInPlace(data: Bytes, pos: nat, bytes: Bytes, k: nat, maximumBytes: nat)
    requires Holds(data, pos, bytes)
    ensures InPlace(UniversalAt(bytes, k, maximumBytes), UniversalAt(data, pos + k, maximumBytes), pos)
  {
    ByteInPlace(data, pos, bytes, k);
    if k < |bytes| {
      RawInPlace(data, pos, bytes, k + 1, bytes[k]);
    }
  }

  lemma {:induction false} ChunksInPlace(data: Bytes, pos: nat, bytes: Bytes, k: nat, maximumSize: nat, taken: Bytes)
    requires Holds(data, pos, bytes) && |taken| <= maximumSize
    ensures InPlace(ChunksAt(bytes, k, maximumSize, taken), ChunksAt(data, pos + k, maximumSize, taken), pos)
    decreases |bytes| - k
  {
    hide UniversalAt;
    UniversalInPlace(data, pos, bytes, k, 4);
    var size := UB4At(bytes, k);
    if size.Got? && size.value != 0 && size.value <= maximumSize - |taken| {
      RawInPlace(data, pos, bytes, size.next, size.value);
      var chunk := RawAt(bytes, size.next, size.value);
      if chunk.Got? {
        ChunksInPlace(data, pos, bytes, chunk.next, maximumSize, taken + chunk.value);
      }
    }
  }

  lemma LengthPrefixedInPlace(data: Bytes, pos: nat, bytes: Bytes, k: nat, maximumSize: nat)
    requires Holds(data, pos, bytes)
    ensures InPlace(LengthPrefixedAt(bytes, k, maximumSize), LengthPrefixedAt(data, pos + k, maximumSize), pos)
  {
    hide ChunksAt;
    ByteInPlace(data, pos, bytes, k);
    if k < |bytes| {
      RawInPlace(data, pos, bytes, k + 1, bytes[k]);
      ChunksInPlace(data, pos, bytes, k + 1, maximumSize, []);
    }
  }

  lemma FieldInPlace(data: Bytes, pos: nat, bytes: Bytes, k: nat, field: Field)
    requires Holds(data, pos, bytes)
    ensures InPlace(FieldAt(bytes, k, field), FieldAt(data, pos + k, field), pos)
  {
    hide UniversalAt, LengthPrefixedAt, RawAt;
    match field
    case Integer(width) => UniversalInPlace(data, pos, bytes, k, width);
    case Raw(count) => RawInPlace(data, pos, bytes, k, count);
    case Text(maximum) => LengthPrefixedInPlace(data, pos, bytes, k, maximum);
    case Announced(limit) =>
      UniversalInPlace(data, pos, bytes, k, 2);
      var size := UB2At(bytes, k);
      if size.Got? {
        LengthPrefixedInPlace(data, pos, bytes, size.next, if limit.Some? then limit.value else size.value);
      }
    case Counted =>
      UniversalInPlace(data, pos, bytes, k, 2);
      var size := UB2At(bytes, k);
      if size.Got? {
        RawInPlace(data, pos, bytes, size.next, size.value);
      }
  }

  lemma {:induction false} SkipInPlace(data: Bytes, pos: nat, bytes: Bytes, k: nat, fields: seq<Field>)
    requires Holds(data, pos, bytes)
    ensures InPlace(SkipAt(bytes, k, fields), SkipAt(data, pos + k, fields), pos)
    decreases |fields|
  {
    hide FieldAt;
    if fields != [] {
      FieldInPlace(data, pos, bytes, k, fields[0]);
      var field := FieldAt(bytes, k, fields[0]);
      if field.Got? {
        SkipInPlace(data, pos, bytes, field.next, fields[1..]);
      }
    }
  }

  lemma PackedArrayInPlace(data: Bytes, pos: nat, bytes: Bytes, k: nat, width: nat)
    requires Holds(data, pos, bytes)
    ensures InPlace(PackedArrayAt(bytes, k, width), PackedArrayAt(data, pos + k, width), pos)
  {
    hide UniversalAt, SkipAt, PackedEntries, ByteAt;
    UniversalInPlace(data, pos, bytes, k, width);
    var count := UniversalAt(bytes, k, width);
    if count.Got? {
      ByteInPlace(data, pos, bytes, count.next);
      var marker := ByteAt(bytes, count.next);
      if marker.Got? {
        SkipInPlace(data, pos, bytes, marker.next, PackedEntries(width, count.value, marker.value));
      }
    }
  }

  lemma BatchMessagesInPlace(data: Bytes, pos: nat, bytes: Bytes, k: nat)
    requires Holds(data, pos, bytes)
    ensures InPlace(BatchMessagesAt(bytes, k), BatchMessagesAt(data, pos + k), pos)
  {
    hide UniversalAt, SkipAt, Repeat;
    UniversalInPlace(data, pos, bytes, k, 2);
    var count := UB2At(bytes, k);
    if count.Got? {
      SkipInPlace(data, pos, bytes, count.next,
        [Raw(1)] + Repeat([Integer(2), Text(MAX_TEXT_BYTES), Raw(2)], count.value));
    }
  }

  lemma ErrorTextInPlace(data: Bytes, pos: nat, bytes: Bytes, k: nat, number: nat)
    requires Holds(data, pos, bytes)
    ensures InPlace(ErrorTextAt(bytes, k, number), ErrorTextAt(data, pos + k, number), pos)
  {
    hide LengthPrefixedAt;
    LengthPrefixedInPlace(data, pos, bytes, k, MAX_TEXT_BYTES);
  }

  lemma ErrorHeadInPlace(data: Bytes, pos: nat, bytes: Bytes, k: nat)
    requires Holds(data, pos, bytes)
    ensures InPlace(ErrorHeadAt(bytes, k), ErrorHeadAt(data, pos + k), pos)
  {
    hide UniversalAt, SkipAt, ByteAt;
    var first, second := [Integer(4), Integer(2)], [Integer(2), Integer(2), Integer(2)];
    var third := [Integer(4), Raw(6), Integer(4), Integer(2), Raw(1), Integer(4), Integer(2), Integer(4), Raw(1), Raw(1),
                  Integer(2), Integer(4)];
    ByteInPlace(data, pos, bytes, k);
    var p1 := ByteAt(bytes, k);
    if p1.Got? {
      SkipInPlace(data, pos, bytes, p1.next, first);
      var p2 := SkipAt(bytes, p1.next, first);
      if p2.Got? {
        UniversalInPlace(data, pos, bytes, p2.next, 4);
        var p3 := UB4At(bytes, p2.next);
        if p3.Got? {
          SkipInPlace(data, pos, bytes, p3.next, second);
          var p4 := SkipAt(bytes, p3.next, second);
          if p4.Got? {
            UniversalInPlace(data, pos, bytes, p4.next, 4);
            var p5 := UB4At(bytes, p4.next);
            if p5.Got? {
              SkipInPlace(data, pos, bytes, p5.next, third);
            }
          }
        }
      }
    }
  }

  lemma ErrorArraysInPlace(data: Bytes, pos: nat, bytes: Bytes, k: nat)
    requires Holds(data, pos, bytes)
    ensures InPlace(ErrorArraysAt(bytes, k), ErrorArraysAt(data, pos + k), pos)
  {
    hide UniversalAt, SkipAt, PackedArrayAt, BatchMessagesAt;
    UniversalInPlace(data, pos, bytes, k, 4);
    var p1 := UB4At(bytes, k);
    if p1.Got? {
      var rowid := if p1.value != 0 then [Text(MAX_TEXT_BYTES)] else [];
      SkipInPlace(data, pos, bytes, p1.next, rowid);
      var p2 := SkipAt(bytes, p1.next, rowid);
      if p2.Got? {
        PackedArrayInPlace(data, pos, bytes, p2.next, 2);
        var p3 := PackedArrayAt(bytes, p2.next, 2);
        if p3.Got? {
          PackedArrayInPlace(data, pos, bytes, p3.next, 4);
          var p4 := PackedArrayAt(bytes, p3.next, 4);
          if p4.Got? {
            BatchMessagesInPlace(data, pos, bytes, p4.next);
          }
        }
      }
    }
  }

  lemma ErrorInPlace(data: Bytes, pos: nat, bytes: Bytes, version: nat)
    requires Holds(data, pos, bytes)
    ensures InPlace(ErrorAt(bytes, 0, version), ErrorAt(data, pos, version), pos)
  {
    hide UniversalAt, SkipAt, ErrorHeadAt, ErrorArraysAt, ErrorTextAt;
    ErrorHeadInPlace(data, pos, bytes, 0);
    var p1 := ErrorHeadAt(bytes, 0);
    if p1.Got? {
      ErrorArraysInPlace(data, pos, bytes, p1.next);
      var p2 := ErrorArraysAt(bytes, p1.next);
      if p2.Got? {
        UniversalInPlace(data, pos, bytes, p2.next, 4);
        var p3 := UB4At(bytes, p2.next);
        if p3.Got? {
          UniversalInPlace(data, pos, bytes, p3.next, 8);
          var p4 := UniversalAt(bytes, p3.next, 8);
          if p4.Got? {
            var trailer := if version >= ERROR_TRAILER_VERSION then [Integer(4), Integer(4)] else [];
            SkipInPlace(data, pos, bytes, p4.next, trailer);
            var p5 := SkipAt(bytes, p4.next, trailer);
            if p5.Got? {
              ErrorTextInPlace(data, pos, bytes, p5.next, p3.value);
            }
          }
        }
      }
    }
  }

  lemma ParameterInPlace(data: Bytes, pos: nat, bytes: Bytes)
    requires Holds(data, pos, bytes)
    ensures InPlace(ParameterAt(bytes, 0), ParameterAt(data, pos), pos)
  {
    hide UniversalAt, SkipAt, Repeat;
    ByteInPlace(data, pos, bytes, 0);
    UniversalInPlace(data, pos, bytes, 1, 2);
    var p2 := UB2At(bytes, 1);
    if p2.Got? {
      var slots := Repeat([Integer(4)], p2.value) + [Counted];
      SkipInPlace(data, pos, bytes, p2.next, slots);
      var p3 := SkipAt(bytes, p2.next, slots);
      if p3.Got? {
        UniversalInPlace(data, pos, bytes, p3.next, 2);
        var p4 := UB2At(bytes, p3.next);
        if p4.Got? {
          SkipInPlace(data, pos, bytes, p4.next,
            Repeat([Announced(None), Announced(None), Integer(2)], p4.value) + [Counted]);
        }
      }
    }
  }

  lemma StatusInPlace(data: Bytes, pos: nat, bytes: Bytes)
    requires Holds(data, pos, bytes)
    ensures InPlace(StatusAt(bytes, 0), StatusAt(data, pos), pos)
  {
    hide SkipAt;
    ByteInPlace(data, pos, bytes, 0);
    SkipInPlace(data, pos, bytes, 1, [Integer(4), Integer(2)]);
  }

  lemma PiggybackInPlace(data: Bytes, pos: nat, bytes: Bytes)
    requires Holds(data, pos, bytes)
    ensures InPlace(PiggybackAt(bytes, 0), PiggybackAt(data, pos), pos)
  {
    hide UniversalAt, SkipAt, Repeat;
    ByteInPlace(data, pos, bytes, 0);
    ByteInPlace(data, pos, bytes, 1);
    SkipInPlace(data, pos, bytes, 2, [Integer(2), Raw(1)]);
    var p3 := SkipAt(bytes, 2, [Integer(2), Raw(1)]);
    if p3.Got? {
      UniversalInPlace(data, pos, bytes, p3.next, 2);
      var p4 := UB2At(bytes, p3.next);
      if p4.Got? {
        var entry := [Announced(Some(MAX_REPORT_BYTES)), Announced(Some(MAX_REPORT_BYTES)), Integer(2)];
        var report := [Raw(1)] + Repeat(entry, p4.value);
        SkipInPlace(data, pos, bytes, p4.next, report);
        var p5 := SkipAt(bytes, p4.next, report);
        if p5.Got? {
          UniversalInPlace(data, pos, bytes, p5.next, 4);
        }
      }
    }
  }
}
