/**
 The TTC byte codec: reads from a position in a buffer, and appends to a buffer.

 Each read is specified by a function of the whole buffer and a position, so that decoders built on
 it can be compared over buffers of different length. `Read.Got` carries the value and the position
 after it; `Read.Failed` is the error thrown.
 */
module ByteBuffer {
  import opened Arithmetic
  import opened Protocol

  const NULL_LENGTH_INDICATOR: byte := 255
  const LONG_LENGTH_INDICATOR: byte := 254
  const MAX_SHORT_LENGTH := 252
  const CHUNK_SIZE := 0x8000

  datatype Read<+T> = Got(value: T, next: nat) | Failed(kind: ErrorKind) {
    predicate IsFailure() {
      Failed?
    }

    function PropagateFailure<U>(): Read<U>
      requires Failed?
    {
      Failed(kind)
    }

    function Extract(): (T, nat)
      requires Got?
    {
      (value, next)
    }
  }

  // ----- reading

  function ByteAt(data: Bytes, pos: nat): (r: Read<byte>)
    ensures r.Got? ==> pos < r.next <= |data|
  {
    if pos < |data| then Got(data[pos], pos + 1) else Failed(Truncated)
  }

  function RawAt(data: Bytes, pos: nat, count: nat): (r: Read<Bytes>)
    ensures r.Got? ==> r.next == pos + count <= |data| && |r.value| == count
  {
    if pos + count <= |data| then Got(data[pos..pos + count], pos + count) else Failed(Truncated)
  }

  function LittleEndian(low: nat, high: nat): nat {
    low + 256 * high
  }

  function UInt16LEAt(data: Bytes, pos: nat): (r: Read<nat>)
    ensures r.Got? ==> r.next == pos + 2 <= |data|
  {
    var (bytes, next) :- RawAt(data, pos, 2);
    Got(LittleEndian(bytes[0], bytes[1]), next)
  }

  function Pow256(n: nat): (p: nat)
    ensures p >= 1
  {
    if n == 0 then 1 else 256 * Pow256(n - 1)
  }

  /** The number a run of bytes writes, most significant byte first. */
  function BigEndian(bytes: Bytes): (value: nat)
    ensures value < Pow256(|bytes|)
  {
    if bytes == [] then 0 else BigEndian(bytes[..|bytes| - 1]) * 256 + bytes[|bytes| - 1]
  }

  /** A universal integer: a length byte, then that many bytes. A length with its sign bit set, or past
      the declared width, is malformed. */
  function UniversalAt(data: Bytes, pos: nat, maximumBytes: nat): (r: Read<nat>)
    ensures r.Got? ==> pos < r.next <= |data| && r.value < Pow256(maximumBytes)
  {
    var (length, next) :- ByteAt(data, pos);
    if length >= 128 || length > maximumBytes then
      Failed(Malformed)
    else
      var (bytes, end) :- RawAt(data, next, length);
      Pow256Monotone(length, maximumBytes);
      Got(BigEndian(bytes), end)
  }

  function UB2At(data: Bytes, pos: nat): (r: Read<nat>)
    ensures r.Got? ==> pos < r.next <= |data|
  {
    UniversalAt(data, pos, 2)
  }

  function UB4At(data: Bytes, pos: nat): (r: Read<nat>)
    ensures r.Got? ==> pos < r.next <= |data|
  {
    UniversalAt(data, pos, 4)
  }

  /** The chunks of a long value: each a size and its bytes, closed by a zero size. */
  function ChunksAt(data: Bytes, pos: nat, maximumSize: nat, taken: Bytes): (r: Read<Option<Bytes>>)
    requires |taken| <= maximumSize
    ensures r.Got? ==> pos < r.next <= |data|
    ensures r.Got? && r.value.Some? ==> 0 < |r.value.value| <= maximumSize
    decreases |data| - pos
  {
    var (size, next) :- UB4At(data, pos);
    if size == 0 then
      Got(if taken == [] then None else Some(taken), next)
    else if size > maximumSize - |taken| then
      Failed(LimitExceeded)
    else
      var (chunk, end) :- RawAt(data, next, size);
      ChunksAt(data, end, maximumSize, taken + chunk)
  }

  /** A length-prefixed value; a zero length and the NULL indicator are both NULL. */
  function LengthPrefixedAt(data: Bytes, pos: nat, maximumSize: nat): (r: Read<Option<Bytes>>)
    ensures r.Got? ==> pos < r.next <= |data|
    ensures r.Got? && r.value.Some? ==> 0 < |r.value.value| <= maximumSize
  {
    var (first, next) :- ByteAt(data, pos);
    if first == 0 || first == NULL_LENGTH_INDICATOR then
      Got(None, next)
    else if first != LONG_LENGTH_INDICATOR then
      if first > maximumSize then
        Failed(LimitExceeded)
      else
        var (value, end) :- RawAt(data, next, first);
        Got(Some(value), end)
    else
      ChunksAt(data, next, maximumSize, [])
  }

  // ----- writing

  /** How many bytes a universal integer is written in: the fewest that hold it, up to the width. */
  function UniversalWidth(value: nat, bytes: nat, maximumBytes: nat): (width: nat)
    requires 1 <= bytes <= maximumBytes
    ensures bytes <= width <= maximumBytes
    ensures value < Pow256(maximumBytes) ==> value < Pow256(width)
    decreases maximumBytes - bytes
  {
    if bytes < maximumBytes && value >= Pow256(bytes) then UniversalWidth(value, bytes + 1, maximumBytes) else bytes
  }

  /** The low `count` bytes of a number, most significant first. */
  function BytesOf(value: nat, count: nat): (bytes: Bytes)
    ensures |bytes| == count
  {
    if count == 0 then [] else BytesOf(value / 256, count - 1) + [value % 256]
  }

  lemma {:induction false} BigEndianOfBytes(value: nat, count: nat)
    requires value < Pow256(count)
    ensures BigEndian(BytesOf(value, count)) == value
  {
    if count > 0 {
      var rest := BytesOf(value / 256, count - 1);
      BigEndianOfBytes(value / 256, count - 1);
      assert (rest + [value % 256])[..count - 1] == rest;
    }
  }

  /** A number shifted right by whole bytes. */
  function ShiftedRight(value: nat, bytes: nat): nat {
    if bytes == 0 then value else ShiftedRight(value, bytes - 1) / 256
  }

  function Universal(value: nat, maximumBytes: nat): Bytes
    requires 1 <= maximumBytes < 128
  {
    if value == 0 then [0]
    else
      var width := UniversalWidth(value, 1, maximumBytes);
      [width] + BytesOf(value, width)
  }

  function ChunkEnd(value: Bytes, offset: nat): (end: nat)
    requires offset < |value|
    ensures offset < end <= |value| && end - offset <= CHUNK_SIZE
  {
    Min(offset + CHUNK_SIZE, |value|)
  }

  function ChunkOf(value: Bytes, offset: nat): Bytes
    requires offset < |value|
  {
    Universal(ChunkEnd(value, offset) - offset, 4) + value[offset..ChunkEnd(value, offset)]
  }

  function Chunks(value: Bytes, offset: nat): Bytes
    requires offset <= |value|
    decreases |value| - offset
  {
    if offset == |value| then Universal(0, 4)
    else ChunkOf(value, offset) + Chunks(value, ChunkEnd(value, offset))
  }

  function LengthPrefixed(value: Option<Bytes>): (wire: Bytes)
    ensures |wire| > 0
  {
    if value.None? || value.value == [] then [NULL_LENGTH_INDICATOR]
    else if |value.value| <= MAX_SHORT_LENGTH then [|value.value|] + value.value
    else [LONG_LENGTH_INDICATOR] + Chunks(value.value, 0)
  }

  /** What a value becomes on the wire and back: an empty value is NULL. */
  function Collapsed(value: Option<Bytes>): Option<Bytes> {
    if value == Some([]) then None else value
  }

  // ----- a buffer that holds given bytes at a position

  ghost predicate Holds(data: Bytes, pos: nat, bytes: Bytes) {
    pos + |bytes| <= |data| && data[pos..pos + |bytes|] == bytes
  }

  lemma HoldsSplit(data: Bytes, pos: nat, first: Bytes, second: Bytes)
    requires Holds(data, pos, first + second)
    ensures Holds(data, pos, first)
    ensures Holds(data, pos + |first|, second)
  {
    var both := first + second;
    assert data[pos..pos + |first|] == both[..|first|] == first;
    assert data[pos + |first|..pos + |both|] == both[|first|..] == second;
  }

  lemma Pow256Monotone(a: nat, b: nat)
    requires a <= b
    ensures Pow256(a) <= Pow256(b)
    decreases b - a
  {
    if a < b {
      Pow256Monotone(a, b - 1);
    }
  }

  // ----- round trips inside any stream

  lemma {:induction false} UniversalRoundTrip(data: Bytes, pos: nat, value: nat, width: nat, maximumBytes: nat)
    requires 1 <= width <= maximumBytes < 128
    requires value < Pow256(width)
    requires Holds(data, pos, Universal(value, width))
    ensures UniversalAt(data, pos, maximumBytes) == Got(value, pos + |Universal(value, width)|)
  {
    var wire := Universal(value, width);
    assert data[pos] == wire[0];
    if value == 0 {
      assert data[pos + 1..pos + 1] == [];
    } else {
      var n := UniversalWidth(value, 1, width);
      BigEndianOfBytes(value, n);
      HoldsSplit(data, pos, [n], BytesOf(value, n));
    }
  }

  /** One chunk of a written value reads back, and leaves the rest of the chunks. */
  lemma ChunkRoundTrip(data: Bytes, pos: nat, value: Bytes, offset: nat, rest: Bytes) returns (next: nat)
    requires offset < |value|
    requires Holds(data, pos, ChunkOf(value, offset) + rest)
    ensures next == pos + |ChunkOf(value, offset)|
    ensures Holds(data, next, rest)
    ensures var end := ChunkEnd(value, offset);
      && UB4At(data, pos) == Got(end - offset, next - (end - offset))
      && RawAt(data, next - (end - offset), end - offset) == Got(value[offset..end], next)
  {
    hide UniversalAt, Universal, BigEndian, BytesOf;
    var end := ChunkEnd(value, offset);
    next := pos + |ChunkOf(value, offset)|;
    HoldsSplit(data, pos, ChunkOf(value, offset), rest);
    HoldsSplit(data, pos, Universal(end - offset, 4), value[offset..end]);
    Pow256Four();
    UniversalRoundTrip(data, pos, end - offset, 4, 4);
  }

  lemma {:induction false} ChunksRoundTrip(data: Bytes, pos: nat, value: Bytes, offset: nat, maximumSize: nat)
    requires 0 < |value| <= maximumSize
    requires offset <= |value|
    requires Holds(data, pos, Chunks(value, offset))
    ensures ChunksAt(data, pos, maximumSize, value[..offset]) == Got(Some(value), pos + |Chunks(value, offset)|)
    decreases |value| - offset
  {
    hide UB4At, ChunkOf, ChunksAt;
    if offset == |value| {
      LastChunkRoundTrip(data, pos, value, maximumSize);
      assert value[..offset] == value;
    } else {
      var end := ChunkEnd(value, offset);
      var next := ChunkRoundTrip(data, pos, value, offset, Chunks(value, end));
      assert value[..offset] + value[offset..end] == value[..end];
      ChunkRead(data, pos, maximumSize, value[..offset], next - (end - offset), value[offset..end], next);
      ChunksRoundTrip(data, next, value, end, maximumSize);
    }
  }

  lemma ChunkRead(data: Bytes, pos: nat, maximumSize: nat, taken: Bytes, start: nat, chunk: Bytes, next: nat)
    requires 0 < |chunk| && |taken| + |chunk| <= maximumSize
    requires UB4At(data, pos) == Got(|chunk|, start)
    requires RawAt(data, start, |chunk|) == Got(chunk, next)
    ensures ChunksAt(data, pos, maximumSize, taken) == ChunksAt(data, next, maximumSize, taken + chunk)
  {
  }

  lemma LastChunkRoundTrip(data: Bytes, pos: nat, value: Bytes, maximumSize: nat)
    requires 0 < |value| <= maximumSize
    requires Holds(data, pos, Universal(0, 4))
    ensures ChunksAt(data, pos, maximumSize, value) == Got(Some(value), pos + |Universal(0, 4)|)
  {
    Pow256Four();
    UniversalRoundTrip(data, pos, 0, 4, 4);
  }

  /** A written value reads back, an empty one as NULL, and the read ends at the byte after it. */
  lemma {:induction false} LengthPrefixedRoundTrip(data: Bytes, pos: nat, value: Option<Bytes>, maximumSize: nat)
    requires value.Some? ==> |value.value| <= maximumSize
    requires Holds(data, pos, LengthPrefixed(value))
    ensures LengthPrefixedAt(data, pos, maximumSize) == Got(Collapsed(value), pos + |LengthPrefixed(value)|)
  {
    var wire := LengthPrefixed(value);
    assert data[pos] == wire[0];
    if value.Some? && value.value != [] {
      if |value.value| <= MAX_SHORT_LENGTH {
        HoldsSplit(data, pos, [|value.value|], value.value);
      } else {
        HoldsSplit(data, pos, [LONG_LENGTH_INDICATOR], Chunks(value.value, 0));
        ChunksRoundTrip(data, pos + 1, value.value, 0, maximumSize);
      }
    }
  }

  // ----- reads do not depend on the bytes after them

  /** What a read over a buffer says about the same read over a longer buffer that begins with it: a
      value, and any error but truncation, is already final. */
  ghost predicate Settled<T>(short: Read<T>, long: Read<T>) {
    short == Failed(Truncated) || long == short
  }

  lemma UniversalSettled(short: Bytes, long: Bytes, pos: nat, maximumBytes: nat)
    requires short <= long
    ensures Settled(UniversalAt(short, pos, maximumBytes), UniversalAt(long, pos, maximumBytes))
  {
    RawSettled(short, long, pos + 1, if pos < |short| then short[pos] else 0);
  }

  lemma RawSettled(short: Bytes, long: Bytes, pos: nat, count: nat)
    requires short <= long
    ensures Settled(RawAt(short, pos, count), RawAt(long, pos, count))
  {
    if pos + count <= |short| {
      assert short[pos..pos + count] == long[pos..pos + count];
    }
  }

  lemma {:induction false} ChunksSettled(short: Bytes, long: Bytes, pos: nat, maximumSize: nat, taken: Bytes)
    requires short <= long
    requires |taken| <= maximumSize
    ensures Settled(ChunksAt(short, pos, maximumSize, taken), ChunksAt(long, pos, maximumSize, taken))
    decreases |short| - pos
  {
    UniversalSettled(short, long, pos, 4);
    var size := UB4At(short, pos);
    if size.Got? && size.value != 0 && size.value <= maximumSize - |taken| {
      RawSettled(short, long, size.next, size.value);
      var chunk := RawAt(short, size.next, size.value);
      if chunk.Got? {
        ChunksSettled(short, long, chunk.next, maximumSize, taken + chunk.value);
      }
    }
  }

  lemma LengthPrefixedSettled(short: Bytes, long: Bytes, pos: nat, maximumSize: nat)
    requires short <= long
    ensures Settled(LengthPrefixedAt(short, pos, maximumSize), LengthPrefixedAt(long, pos, maximumSize))
  {
    if pos < |short| {
      RawSettled(short, long, pos + 1, short[pos]);
      ChunksSettled(short, long, pos + 1, maximumSize, []);
    }
  }

  // ----- the reader and the writer

  /** Reads left to right from a fixed buffer. A read that fails leaves the position anywhere between
      where it began and the end. */
  class ByteReader {
    const data: Bytes
    var position: nat

    ghost predicate Valid()
      reads this
    {
      position <= |data|
    }

    /** The read `r` is what the specification `spec` of it at `from` says. */
    ghost predicate Reads<T>(spec: Read<T>, r: Result<T>)
      reads this
    {
      match spec
      case Got(value, next) => r == Ok(value) && position == next
      case Failed(kind) => r == Err(kind)
    }

    constructor (data: Bytes)
      ensures Valid() && this.data == data && position == 0
    {
      this.data := data;
      position := 0;
    }

    method ReadByte() returns (r: Result<byte>)
      requires Valid()
      modifies this
      ensures Valid() && Reads(ByteAt(data, old(position)), r)
    {
      if |data| - position == 0 {
        return Err(Truncated);
      }
      r := Ok(data[position]);
      position := position + 1;
    }

    method ReadRaw(count: nat) returns (r: Result<Bytes>)
      requires Valid()
      modifies this
      ensures Valid() && Reads(RawAt(data, old(position), count), r)
    {
      if count > |data| - position {
        return Err(Truncated);
      }
      r := Ok(data[position..position + count]);
      position := position + count;
    }

    method ReadUInt16LE() returns (r: Result<nat>)
      requires Valid()
      modifies this
      ensures Valid() && Reads(UInt16LEAt(data, old(position)), r)
    {
      var bytes :- ReadRaw(2);
      return Ok(LittleEndian(bytes[0], bytes[1]));
    }

    /** The accumulator is a 64-bit integer; for the widths read here, at most eight bytes, no shift
        loses a bit. */
    method ReadUniversal(maximumBytes: nat) returns (r: Result<nat>)
      requires Valid() && maximumBytes <= 8
      modifies this
      ensures Valid() && Reads(UniversalAt(data, old(position), maximumBytes), r)
    {
      var length :- ReadByte();
      if length >= 128 || length > maximumBytes {
        return Err(Malformed);
      }
      ghost var start := position;
      var result: nat := 0;
      var index := 0;
      while index < length
        invariant 0 <= index <= length
        invariant position == start + index <= |data|
        invariant result == BigEndian(data[start..start + index])
      {
        var next := ReadByte();
        if next.Err? {
          return Err(next.kind);
        }
        assert data[start..start + index + 1][..index] == data[start..start + index];
        assert result < 0x100_0000_0000_0000 by {
          Pow256Monotone(index, 7);
          Pow256Seven();
        }
        result := result * 256 + next.value;
        index := index + 1;
      }
      return Ok(result);
    }

    method ReadLengthPrefixed(maximumSize: nat) returns (r: Result<Option<Bytes>>)
      requires Valid()
      modifies this
      ensures Valid() && Reads(LengthPrefixedAt(data, old(position), maximumSize), r)
    {
      var first :- ReadByte();
      if first == 0 || first == NULL_LENGTH_INDICATOR {
        return Ok(None);
      }
      if first != LONG_LENGTH_INDICATOR {
        if first > maximumSize {
          return Err(LimitExceeded);
        }
        var value :- ReadRaw(first);
        return Ok(Some(value));
      }
      var result: Bytes := [];
      ghost var start := position;
      while true
        invariant Valid() && |result| <= maximumSize
        invariant ChunksAt(data, start, maximumSize, []) == ChunksAt(data, position, maximumSize, result)
        decreases |data| - position
      {
        var size :- ReadUniversal(4);
        if size == 0 {
          return Ok(if result == [] then None else Some(result));
        }
        if size > maximumSize - |result| {
          return Err(LimitExceeded);
        }
        var chunk :- ReadRaw(size);
        result := result + chunk;
      }
    }
  }

  lemma Pow256Four()
    ensures Pow256(4) == 0x1_0000_0000
  {
    assert Pow256(2) == 0x1_0000;
  }

  lemma Pow256Seven()
    ensures Pow256(7) == 0x100_0000_0000_0000
  {
    assert Pow256(3) == 0x100_0000;
    assert Pow256(5) == 0x100_0000_0000;
  }

  /** Appends to a growing buffer. */
  class ByteWriter {
    var data: Bytes

    constructor ()
      ensures data == []
    {
      data := [];
    }

    method WriteByte(value: byte)
      modifies this
      ensures data == old(data) + [value]
    {
      data := data + [value];
    }

    method WriteRaw(value: Bytes)
      modifies this
      ensures data == old(data) + value
    {
      data := data + value;
    }

    method WriteUniversal(value: nat, maximumBytes: nat)
      requires 1 <= maximumBytes <= 8
      modifies this
      ensures data == old(data) + Universal(value, maximumBytes)
    {
      if value == 0 {
        WriteByte(0);
        return;
      }
      var bytes := MeasureUniversal(value, maximumBytes);
      WriteByte(bytes);
      WriteBigEndian(value, bytes);
    }

    static method MeasureUniversal(value: nat, maximumBytes: nat) returns (bytes: nat)
      requires 1 <= maximumBytes
      ensures bytes == UniversalWidth(value, 1, maximumBytes)
    {
      bytes := 1;
      while bytes < maximumBytes && value >= Pow256(bytes)
        invariant 1 <= bytes <= maximumBytes
        invariant UniversalWidth(value, 1, maximumBytes) == UniversalWidth(value, bytes, maximumBytes)
      {
        bytes := bytes + 1;
      }
    }

    method WriteBigEndian(value: nat, bytes: nat)
      modifies this
      ensures data == old(data) + BytesOf(value, bytes)
    {
      var index: nat := bytes;
      while index > 0
        invariant index <= bytes
        invariant data == old(data) + BytesOf(ShiftedRight(value, index), bytes - index)
      {
        WriteByte(ShiftedRight(value, index - 1) % 256);
        index := index - 1;
      }
    }

    method WriteLengthPrefixed(value: Option<Bytes>)
      modifies this
      ensures data == old(data) + LengthPrefixed(value)
    {
      if value.None? || value.value == [] {
        WriteByte(NULL_LENGTH_INDICATOR);
        return;
      }
      var bytes := value.value;
      if |bytes| <= MAX_SHORT_LENGTH {
        WriteByte(|bytes|);
        WriteRaw(bytes);
        return;
      }
      WriteByte(LONG_LENGTH_INDICATOR);
      WriteChunks(bytes);
    }

    method WriteChunks(bytes: Bytes)
      modifies this
      ensures data == old(data) + Chunks(bytes, 0)
    {
      var offset := 0;
      LastChunk(bytes);
      hide Universal, Chunks, ChunkOf;
      while offset < |bytes|
        invariant 0 <= offset <= |bytes|
        invariant data + Chunks(bytes, offset) == old(data) + Chunks(bytes, 0)
      {
        var end := ChunkEnd(bytes, offset);
        ChunkAppended(data, bytes, offset);
        ghost var before := data;
        WriteUniversal(end - offset, 4);
        WriteRaw(bytes[offset..end]);
        ChunkWritten(before, bytes, offset);
        offset := end;
      }
      WriteUniversal(0, 4);
    }
  }

  lemma LastChunk(value: Bytes)
    ensures Chunks(value, |value|) == Universal(0, 4)
  {
  }

  lemma ChunkWritten(written: Bytes, value: Bytes, offset: nat)
    requires offset < |value|
    ensures var end := ChunkEnd(value, offset);
      written + Universal(end - offset, 4) + value[offset..end] == written + ChunkOf(value, offset)
  {
    hide Universal;
  }

  lemma ChunkAppended(written: Bytes, value: Bytes, offset: nat)
    requires offset < |value|
    ensures written + Chunks(value, offset) == written + ChunkOf(value, offset) + Chunks(value, ChunkEnd(value, offset))
  {
  }
}
