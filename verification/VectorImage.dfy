/**
 The image of a VECTOR (oracle_vector.cpp): what the encoder writes the decoder reads back, dense or sparse, in every
 format, and what the decoder returns the encoder accepts.
 */
module VectorImage {
  import opened Protocol
  import opened Arithmetic
  import opened ByteBuffer
  import opened FloatOrder

  const FLOAT32_FORMAT := 2
  const FLOAT64_FORMAT := 3
  const INT8_FORMAT := 4
  const BINARY_FORMAT := 5
  const MAXIMUM_DIMENSIONS := 65535

  const MAGIC: byte := 0xDB
  const MAXIMUM_VERSION := 2
  const FLAG_NORM := 0x10
  const FLAG_SPARSE := 0x20
  const HEADER_SIZE := 9

  /** A vector; its elements are IEEE 754 bits, integers from -128 to 127, or packed bytes, as its format says. */
  datatype OracleVector = OracleVector(
    format: nat, dimensions: nat, sparse: bool, indices: seq<nat>, elements: seq<int>)

  /** How many bytes an element takes; nothing for a format that is not known. */
  function ElementWidth(format: nat): (width: Option<nat>)
    ensures width.Some? <==> FLOAT32_FORMAT <= format <= BINARY_FORMAT
    ensures width.Some? ==> width.value in {1, 4, 8}
  {
    match format
    case 2 => Some(4)
    case 3 => Some(8)
    case 4 => Some(1)
    case 5 => Some(1)
    case _ => None
  }

  function Width(format: nat): (width: nat)
    requires ElementWidth(format).Some?
    ensures width in {1, 4, 8}
  {
    ElementWidth(format).value
  }

  /** A value the format's elements can have. */
  predicate IsElement(format: nat, element: int) {
    match format
    case 2 => 0 <= element < Pow256(4)
    case 3 => 0 <= element < Pow256(8)
    case 4 => -128 <= element < 128
    case 5 => 0 <= element < 256
    case _ => false
  }

  predicate AreElements(format: nat, elements: seq<int>) {
    forall i :: 0 <= i < |elements| ==> IsElement(format, elements[i])
  }

  // ----- elements

  function ElementBytes(format: nat, element: int): (bytes: Bytes)
    requires IsElement(format, element)
    ensures |bytes| == Width(format)
  {
    if format == INT8_FORMAT then [if element < 0 then element + 256 else element]
    else if format == BINARY_FORMAT then [element]
    else Sortable(element, Width(format))
  }

  function ElementFrom(format: nat, bytes: Bytes): (element: int)
    requires ElementWidth(format).Some? && |bytes| == Width(format)
    ensures IsElement(format, element)
  {
    if format == INT8_FORMAT then if bytes[0] >= 128 then bytes[0] - 256 else bytes[0]
    else if format == BINARY_FORMAT then bytes[0]
    else FromSortable(bytes)
  }

  lemma ElementReadsBack(format: nat, element: int)
    requires IsElement(format, element)
    ensures ElementFrom(format, ElementBytes(format, element)) == element
  {
    hide Sortable, FromSortable, Pow256;
    if format == FLOAT32_FORMAT || format == FLOAT64_FORMAT {
      SortableReadsBack(element, Width(format));
    }
  }

  function ElementsBytes(format: nat, elements: seq<int>): (bytes: Bytes)
    requires ElementWidth(format).Some? && AreElements(format, elements)
    ensures |bytes| == |elements| * Width(format)
  {
    if elements == [] then []
    else
      MulSuccessor(|elements| - 1, Width(format));
      ElementBytes(format, elements[0]) + ElementsBytes(format, elements[1..])
  }

  function ElementsFrom(format: nat, data: Bytes, count: nat): (elements: seq<int>)
    requires ElementWidth(format).Some? && |data| == count * Width(format)
    ensures |elements| == count && AreElements(format, elements)
    decreases count
  {
    if count == 0 then []
    else
      var width := Width(format);
      assert |data| - width == (count - 1) * width;
      [ElementFrom(format, data[..width])] + ElementsFrom(format, data[width..], count - 1)
  }

  lemma {:induction false} ElementsReadBack(format: nat, elements: seq<int>)
    requires ElementWidth(format).Some? && AreElements(format, elements)
    ensures ElementsFrom(format, ElementsBytes(format, elements), |elements|) == elements
  {
    hide ElementBytes, ElementFrom, ElementWidth;
    if elements != [] {
      var first := ElementBytes(format, elements[0]);
      var bytes := ElementsBytes(format, elements);
      ElementReadsBack(format, elements[0]);
      ElementsReadBack(format, elements[1..]);
      assert bytes[..|first|] == first && bytes[|first|..] == ElementsBytes(format, elements[1..]);
      assert elements == [elements[0]] + elements[1..];
    }
  }

  // ----- indices

  /** Indices within the vector, each greater than the one before. */
  predicate IndicesFit(indices: seq<nat>, dimensions: nat) {
    && (forall i :: 0 <= i < |indices| ==> indices[i] < dimensions)
    && (forall i :: 0 < i < |indices| ==> indices[i - 1] < indices[i])
  }

  function IndicesBytes(indices: seq<nat>): (bytes: Bytes)
    ensures |bytes| == 4 * |indices|
  {
    if indices == [] then [] else BytesOf(indices[0], 4) + IndicesBytes(indices[1..])
  }

  function IndicesFrom(data: Bytes, count: nat): (indices: seq<nat>)
    requires |data| == 4 * count
    ensures |indices| == count
    decreases count
  {
    if count == 0 then [] else [BigEndian(data[..4])] + IndicesFrom(data[4..], count - 1)
  }

  lemma {:induction false} IndicesReadBack(indices: seq<nat>)
    requires forall i :: 0 <= i < |indices| ==> indices[i] < Pow256(4)
    ensures IndicesFrom(IndicesBytes(indices), |indices|) == indices
  {
    hide BytesOf, BigEndian, Pow256;
    if indices != [] {
      BigEndianOfBytes(indices[0], 4);
      IndicesReadBack(indices[1..]);
      var bytes := IndicesBytes(indices);
      assert bytes[..4] == BytesOf(indices[0], 4) && bytes[4..] == IndicesBytes(indices[1..]);
      assert indices == [indices[0]] + indices[1..];
    }
  }

  // ----- the image

  /** The vector agrees with its own dimension count. */
  predicate Agrees(vector: OracleVector) {
    var count := |vector.elements|;
    && vector.dimensions <= MAXIMUM_DIMENSIONS
    && (vector.sparse ==>
          && vector.format != BINARY_FORMAT && |vector.indices| == count
          && count <= 65535 && count <= vector.dimensions)
    && (!vector.sparse ==> vector.dimensions == if vector.format == BINARY_FORMAT then count * 8 else count)
  }

  function Version(vector: OracleVector): byte {
    if vector.sparse then 2 else if vector.format == BINARY_FORMAT then 1 else 0
  }

  function Flags(vector: OracleVector): nat {
    if vector.sparse then FLAG_NORM + FLAG_SPARSE + 2
    else if vector.format == BINARY_FORMAT then FLAG_NORM
    else FLAG_NORM + 2
  }

  function Header(vector: OracleVector): (bytes: Bytes)
    requires vector.format < 256
    ensures |bytes| == HEADER_SIZE + 8
  {
    [MAGIC, Version(vector)] + BytesOf(Flags(vector), 2) + [vector.format] + BytesOf(vector.dimensions, 4)
    + [0, 0, 0, 0, 0, 0, 0, 0]
  }

  /** The elements are values of the vector's format, which their types see to. */
  predicate WellTyped(vector: OracleVector) {
    vector.format < 256 && (ElementWidth(vector.format).Some? ==> AreElements(vector.format, vector.elements))
  }

  function Encode(vector: OracleVector): Result<Bytes>
    requires WellTyped(vector)
  {
    if ElementWidth(vector.format).None? then Err(Unsupported)
    else if !Agrees(vector) then Err(Malformed)
    else if vector.sparse && !IndicesFit(vector.indices, vector.dimensions) then Err(Malformed)
    else
      var elements := ElementsBytes(vector.format, vector.elements);
      Ok(Header(vector)
         + (if vector.sparse then BytesOf(|vector.elements|, 2) + IndicesBytes(vector.indices) else [])
         + elements)
  }

  /** The flags that are known: 0x02, 0x04, 0x10 and 0x20. */
  predicate KnownFlags(flags: nat) {
    flags < 64 && flags % 2 == 0 && flags / 8 % 2 == 0
  }

  function Decode(image: Bytes): (r: Result<OracleVector>)
    ensures r.Ok? ==> WellTyped(r.value)
  {
    if |image| < HEADER_SIZE then Err(Truncated)
    else if image[0] != MAGIC then Err(Malformed)
    else if image[1] > MAXIMUM_VERSION then Err(Unsupported)
    else
      var flags := BigEndian(image[2..4]);
      if !KnownFlags(flags) then Err(Unsupported)
      else
        var format := image[4];
        var dimensions := BigEndian(image[5..9]);
        if ElementWidth(format).None? then Err(Unsupported)
        else if dimensions > MAXIMUM_DIMENSIONS then Err(LimitExceeded)
        else if format == BINARY_FORMAT && dimensions % 8 != 0 then Err(Malformed)
        else if flags / 16 % 2 == 1 && |image| < HEADER_SIZE + 8 then Err(Truncated)
        else
          var rest := image[if flags / 16 % 2 == 1 then HEADER_SIZE + 8 else HEADER_SIZE..];
          if flags / 32 % 2 == 1 then DecodeSparse(format, dimensions, rest) else DecodeDense(format, dimensions, rest)
  }

  function DecodeDense(format: nat, dimensions: nat, rest: Bytes): (r: Result<OracleVector>)
    requires ElementWidth(format).Some?
    ensures r.Ok? ==> WellTyped(r.value)
  {
    var count := if format == BINARY_FORMAT then dimensions / 8 else dimensions;
    if |rest| < count * Width(format) then Err(Truncated)
    else if |rest| > count * Width(format) then Err(Malformed)
    else Ok(OracleVector(format, dimensions, false, [], ElementsFrom(format, rest, count)))
  }

  function DecodeSparse(format: nat, dimensions: nat, rest: Bytes): (r: Result<OracleVector>)
    requires ElementWidth(format).Some?
    ensures r.Ok? ==> WellTyped(r.value)
  {
    if format == BINARY_FORMAT then Err(Unsupported)
    else if |rest| < 2 then Err(Truncated)
    else
      var count := BigEndian(rest[..2]);
      var size := 4 * count + count * Width(format);
      if count > dimensions then Err(Malformed)
      else if |rest| - 2 < size then Err(Truncated)
      else if |rest| - 2 > size then Err(Malformed)
      else
        var indices := IndicesFrom(rest[2..2 + 4 * count], count);
        if !IndicesFit(indices, dimensions) then Err(Malformed)
        else Ok(OracleVector(format, dimensions, true, indices, ElementsFrom(format, rest[2 + 4 * count..], count)))
  }

  // ----- what is written reads back

  lemma SmallPowers()
    ensures Pow256(0) == 1 && Pow256(1) == 256 && Pow256(2) == 65536 && Pow256(4) == 0x1_0000_0000
  {
    assert Pow256(3) == 0x100_0000;
  }

  /** What the header fields read as. */
  lemma HeaderReads(vector: OracleVector, rest: Bytes)
    requires vector.format < 256 && vector.dimensions <= MAXIMUM_DIMENSIONS
    ensures var image := Header(vector) + rest;
      && image[0] == MAGIC && image[1] == Version(vector) && image[4] == vector.format
      && BigEndian(image[2..4]) == Flags(vector) && BigEndian(image[5..9]) == vector.dimensions
      && image[HEADER_SIZE + 8..] == rest
  {
    SmallPowers();
    BigEndianOfBytes(Flags(vector), 2);
    BigEndianOfBytes(vector.dimensions, 4);
    hide BigEndian, BytesOf, Pow256;
    var image := Header(vector) + rest;
    assert image[2..4] == BytesOf(Flags(vector), 2);
    assert image[5..9] == BytesOf(vector.dimensions, 4);
  }

  /** A dense vector holds nothing but its elements: there are no indices to write. */
  predicate Tidy(vector: OracleVector) {
    !vector.sparse ==> vector.indices == []
  }

  lemma DenseReadsBack(vector: OracleVector)
    requires WellTyped(vector) && ElementWidth(vector.format).Some? && Agrees(vector) && !vector.sparse && Tidy(vector)
    ensures DecodeDense(vector.format, vector.dimensions, ElementsBytes(vector.format, vector.elements)) == Ok(vector)
  {
    hide ElementsBytes, ElementsFrom, IsElement, ElementWidth;
    ElementsReadBack(vector.format, vector.elements);
  }

  lemma SparseReadsBack(vector: OracleVector)
    requires WellTyped(vector) && ElementWidth(vector.format).Some? && Agrees(vector) && vector.sparse
    requires IndicesFit(vector.indices, vector.dimensions)
    ensures DecodeSparse(vector.format, vector.dimensions,
                         BytesOf(|vector.elements|, 2) + IndicesBytes(vector.indices)
                         + ElementsBytes(vector.format, vector.elements)) == Ok(vector)
  {
    SmallPowers();
    BigEndianOfBytes(|vector.elements|, 2);
    hide ElementsBytes, ElementsFrom, IsElement, ElementWidth, BigEndian, BytesOf, Pow256, IndicesBytes, IndicesFrom;
    IndicesReadBack(vector.indices);
    ElementsReadBack(vector.format, vector.elements);
    var count := |vector.elements|;
    var elements := ElementsBytes(vector.format, vector.elements);
    var rest := BytesOf(count, 2) + IndicesBytes(vector.indices) + elements;
    assert rest[..2] == BytesOf(count, 2);
    assert rest[2..2 + 4 * count] == IndicesBytes(vector.indices);
    assert rest[2 + 4 * count..] == elements;
  }

  /** Decoding what the encoder writes returns the vector, for every vector the encoder accepts. */
  lemma ImageReadsBack(vector: OracleVector)
    requires WellTyped(vector) && Tidy(vector) && Encode(vector).Ok?
    ensures Decode(Encode(vector).value) == Ok(vector)
  {
    hide ElementsBytes, ElementsFrom, IsElement, BigEndian, BytesOf, Pow256, IndicesBytes, IndicesFrom, DecodeDense,
         DecodeSparse;
    var elements := ElementsBytes(vector.format, vector.elements);
    if vector.sparse {
      var rest := BytesOf(|vector.elements|, 2) + IndicesBytes(vector.indices) + elements;
      HeaderReads(vector, rest);
      SparseReadsBack(vector);
      assert Encode(vector).value == Header(vector) + rest;
    } else {
      HeaderReads(vector, elements);
      DenseReadsBack(vector);
      assert Header(vector) + [] + elements == Header(vector) + elements;
    }
    hide Header, IndicesFit;
  }

  /** Every vector the decoder returns agrees with itself, its indices rising and in range, and is accepted by the
      encoder. */
  lemma DecodedIsEncodable(image: Bytes)
    requires Decode(image).Ok?
    ensures var vector := Decode(image).value;
      && Agrees(vector) && Tidy(vector) && IndicesFit(vector.indices, vector.dimensions)
      && Encode(vector).Ok? && Decode(Encode(vector).value) == Ok(vector)
  {
    var vector := Decode(image).value;
    assert Agrees(vector) && Tidy(vector) && IndicesFit(vector.indices, vector.dimensions) by {
      hide ElementsFrom, IsElement, BigEndian, IndicesFrom, Pow256;
    }
    hide Decode, ElementsBytes, IndicesBytes, Header, IsElement;
    ImageReadsBack(vector);
  }

  // ----- the loops

  method Put(value: nat, count: nat) returns (bytes: Bytes)
    ensures bytes == BytesOf(value, count)
  {
    bytes := [];
    var index: nat := count;
    while index > 0
      invariant index <= count
      invariant bytes == BytesOf(ShiftedRight(value, index), count - index)
    {
      bytes := bytes + [ShiftedRight(value, index - 1) % 256];
      index := index - 1;
    }
  }

  method PutElements(format: nat, elements: seq<int>) returns (bytes: Bytes)
    requires ElementWidth(format).Some? && AreElements(format, elements)
    ensures bytes == ElementsBytes(format, elements)
  {
    hide ElementBytes, IsElement, ElementWidth;
    bytes := [];
    assert elements[0..] == elements;
    for i := 0 to |elements|
      invariant ElementsBytes(format, elements) == bytes + ElementsBytes(format, elements[i..])
    {
      assert elements[i..][1..] == elements[i + 1..];
      var element;
      if format == FLOAT32_FORMAT || format == FLOAT64_FORMAT {
        element := PutFloating(format, elements[i]);
      } else {
        element := ElementBytes(format, elements[i]);
      }
      bytes := bytes + element;
    }
  }

  method PutFloating(format: nat, element: int) returns (bytes: Bytes)
    requires format in {FLOAT32_FORMAT, FLOAT64_FORMAT} && IsElement(format, element)
    ensures bytes == ElementBytes(format, element)
  {
    bytes := SortableFloating(element, Width(format));
  }

  /** The indices, each checked against the one before it as it is written. */
  method PutIndices(indices: seq<nat>, dimensions: nat) returns (r: Result<Bytes>)
    ensures r == if IndicesFit(indices, dimensions) then Ok(IndicesBytes(indices)) else Err(Malformed)
  {
    hide BytesOf;
    var bytes: Bytes := [];
    var previous := 0;
    assert indices[0..] == indices;
    for i := 0 to |indices|
      invariant IndicesFit(indices[..i], dimensions)
      invariant i > 0 ==> previous == indices[i - 1]
      invariant IndicesBytes(indices) == bytes + IndicesBytes(indices[i..])
    {
      if indices[i] >= dimensions || (i != 0 && indices[i] <= previous) {
        return Err(Malformed);
      }
      assert indices[i..][1..] == indices[i + 1..];
      previous := indices[i];
      var index := Put(indices[i], 4);
      bytes := bytes + index;
    }
    assert indices[..|indices|] == indices && bytes + IndicesBytes([]) == bytes;
    return Ok(bytes);
  }

  method EncodeOracleVector(vector: OracleVector) returns (r: Result<Bytes>)
    requires WellTyped(vector)
    ensures r == Encode(vector)
  {
    hide ElementsBytes, IndicesBytes, IsElement, BytesOf;
    if ElementWidth(vector.format).None? {
      return Err(Unsupported);
    }
    if !Agrees(vector) {
      return Err(Malformed);
    }
    var flags := Put(Flags(vector), 2);
    var dimensions := Put(vector.dimensions, 4);
    var image := [MAGIC, Version(vector)] + flags + [vector.format] + dimensions + [0, 0, 0, 0, 0, 0, 0, 0];
    assert image == Header(vector);
    if vector.sparse {
      var count := Put(|vector.elements|, 2);
      var indices := PutIndices(vector.indices, vector.dimensions);
      if indices.Err? {
        return Err(indices.kind);
      }
      image := image + (count + indices.value);
    }
    assert image == Header(vector)
      + (if vector.sparse then BytesOf(|vector.elements|, 2) + IndicesBytes(vector.indices) else []);
    var elements := PutElements(vector.format, vector.elements);
    return Ok(image + elements);
  }

  method ReadBigEndian(data: Bytes) returns (value: nat)
    ensures value == BigEndian(data)
  {
    value := 0;
    for i := 0 to |data|
      invariant value == BigEndian(data[..i])
    {
      assert data[..i + 1][..i] == data[..i];
      value := value * 256 + data[i];
    }
    assert data[..|data|] == data;
  }

  method ReadElements(format: nat, data: Bytes, count: nat) returns (elements: seq<int>)
    requires ElementWidth(format).Some? && |data| == count * Width(format)
    ensures elements == ElementsFrom(format, data, count)
  {
    hide ElementFrom, ElementWidth, IsElement;
    elements := [];
    var rest := data;
    for i := 0 to count
      invariant |rest| == (count - i) * Width(format)
      invariant ElementsFrom(format, data, count) == elements + ElementsFrom(format, rest, count - i)
    {
      MulSuccessor(count - i - 1, Width(format));
      elements := elements + [ElementFrom(format, rest[..Width(format)])];
      rest := rest[Width(format)..];
    }
  }

  lemma FitsNext(indices: seq<nat>, index: nat, rest: seq<nat>, dimensions: nat)
    requires IndicesFit(indices, dimensions)
    ensures index < dimensions && (indices != [] ==> indices[|indices| - 1] < index)
      <==> IndicesFit(indices + [index], dimensions)
    ensures !IndicesFit(indices + [index], dimensions) ==> !IndicesFit(indices + ([index] + rest), dimensions)
  {
    var more, whole := indices + [index], indices + ([index] + rest);
    assert more[|indices|] == index && (indices != [] ==> more[|indices| - 1] == indices[|indices| - 1]);
    assert forall i :: 0 <= i < |more| ==> more[i] == whole[i];
  }

  lemma NextIndex(data: Bytes, count: nat)
    requires |data| == 4 * count && count > 0
    ensures IndicesFrom(data, count) == [BigEndian(data[..4])] + IndicesFrom(data[4..], count - 1)
  {
  }

  lemma NoIndices()
    ensures IndicesFrom([], 0) == []
  {
  }

  /** The indices, each checked against the one before it as it is read. */
  method ReadIndices(data: Bytes, count: nat, dimensions: nat) returns (r: Option<seq<nat>>)
    requires |data| == 4 * count
    ensures r == (var indices := IndicesFrom(data, count); if IndicesFit(indices, dimensions) then Some(indices) else None)
  {
    hide BigEndian, IndicesFrom, IndicesFit;
    var indices: seq<nat> := [];
    var rest := data;
    NothingFits(dimensions);
    for i := 0 to count
      invariant |indices| == i && IndicesFit(indices, dimensions)
      invariant |rest| == 4 * (count - i)
      invariant IndicesFrom(data, count) == indices + IndicesFrom(rest, count - i)
    {
      NextIndex(rest, count - i);
      var index := ReadBigEndian(rest[..4]);
      rest := rest[4..];
      FitsNext(indices, index, IndicesFrom(rest, count - i - 1), dimensions);
      if index >= dimensions || (i != 0 && index <= indices[i - 1]) {
        return None;
      }
      assert indices + ([index] + IndicesFrom(rest, count - i - 1)) == indices + [index] + IndicesFrom(rest, count - i - 1);
      indices := indices + [index];
    }
    NoIndices();
    assert rest == [] && indices + [] == indices;
    return Some(indices);
  }

  lemma NothingFits(dimensions: nat)
    ensures IndicesFit([], dimensions)
  {
  }

  method DecodeOracleVector(image: Bytes) returns (r: Result<OracleVector>)
    ensures r == Decode(image)
  {
    hide ElementsFrom, IndicesFrom, IsElement, BigEndian;
    if |image| < HEADER_SIZE {
      return Err(Truncated);
    }
    if image[0] != MAGIC {
      return Err(Malformed);
    }
    if image[1] > MAXIMUM_VERSION {
      return Err(Unsupported);
    }
    var flags := ReadBigEndian(image[2..4]);
    if !KnownFlags(flags) {
      return Err(Unsupported);
    }
    var format: nat := image[4];
    var dimensions := ReadBigEndian(image[5..9]);
    if ElementWidth(format).None? {
      return Err(Unsupported);
    }
    if dimensions > MAXIMUM_DIMENSIONS {
      return Err(LimitExceeded);
    }
    if format == BINARY_FORMAT && dimensions % 8 != 0 {
      return Err(Malformed);
    }
    var position := HEADER_SIZE;
    if flags / 16 % 2 == 1 {
      if |image| - position < 8 {
        return Err(Truncated);
      }
      position := position + 8;
    }
    if flags / 32 % 2 == 0 {
      r := ReadDense(format, dimensions, image[position..]);
    } else {
      r := ReadSparse(format, dimensions, image[position..]);
    }
  }

  method ReadDense(format: nat, dimensions: nat, rest: Bytes) returns (r: Result<OracleVector>)
    requires ElementWidth(format).Some?
    ensures r == DecodeDense(format, dimensions, rest)
  {
    hide ElementsFrom, IsElement, ElementWidth;
    var count := if format == BINARY_FORMAT then dimensions / 8 else dimensions;
    if |rest| != count * Width(format) {
      return Err(if |rest| < count * Width(format) then Truncated else Malformed);
    }
    var elements := ReadElements(format, rest, count);
    return Ok(OracleVector(format, dimensions, false, [], elements));
  }

  method ReadSparse(format: nat, dimensions: nat, rest: Bytes) returns (r: Result<OracleVector>)
    requires ElementWidth(format).Some?
    ensures r == DecodeSparse(format, dimensions, rest)
  {
    hide ElementsFrom, IndicesFrom, IsElement, ElementWidth, BigEndian;
    if format == BINARY_FORMAT {
      return Err(Unsupported);
    }
    if |rest| < 2 {
      return Err(Truncated);
    }
    var count := ReadBigEndian(rest[..2]);
    if count > dimensions {
      return Err(Malformed);
    }
    if |rest| - 2 != 4 * count + count * Width(format) {
      return Err(if |rest| - 2 < 4 * count + count * Width(format) then Truncated else Malformed);
    }
    var indices := ReadIndices(rest[2..2 + 4 * count], count, dimensions);
    if indices.None? {
      return Err(Malformed);
    }
    var elements := ReadElements(format, rest[2 + 4 * count..], count);
    return Ok(OracleVector(format, dimensions, true, indices.value, elements));
  }
}
