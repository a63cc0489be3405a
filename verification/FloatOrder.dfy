/**
 Floating-point numbers as bytes that sort as the numbers do (oracle_vector.cpp): the sign bit set for a positive
 number, every bit inverted for a negative one. Numbers are their IEEE 754 bits here.
 */
module FloatOrder {
  import opened Protocol
  import opened Arithmetic
  import opened ByteBuffer

  /** A binary interchange format: its bytes, and how many values its fraction has. */
  datatype Format = Format(width: nat, fractions: nat)

  const FLOAT32 := Format(4, 0x80_0000)
  const FLOAT64 := Format(8, 0x10_0000_0000_0000)

  /** The first number with the sign bit. */
  function Half(format: Format): (h: nat)
    requires format.width > 0
  {
    128 * Pow256(format.width - 1)
  }

  // ----- bytes

  function Inverted(bytes: Bytes): (r: Bytes)
    ensures |r| == |bytes| && forall i :: 0 <= i < |bytes| ==> r[i] == 255 - bytes[i]
  {
    seq(|bytes|, i requires 0 <= i < |bytes| => 255 - bytes[i])
  }

  /** The same bytes with the top bit set. */
  function Raised(bytes: Bytes): (r: Bytes)
    requires bytes != [] && bytes[0] < 0x80
    ensures |r| == |bytes|
  {
    [bytes[0] + 0x80] + bytes[1..]
  }

  /** The same bytes with the top bit cleared. */
  function Lowered(bytes: Bytes): (r: Bytes)
    requires bytes != [] && bytes[0] >= 0x80
    ensures |r| == |bytes|
  {
    [bytes[0] - 0x80] + bytes[1..]
  }

  /** The bytes of a number as they sort. */
  function Sortable(bits: nat, width: nat): (bytes: Bytes)
    requires width > 0
    ensures |bytes| == width
  {
    Flipped(BytesOf(bits, width))
  }

  function Flipped(bytes: Bytes): (r: Bytes)
    requires bytes != []
    ensures |r| == |bytes|
  {
    if bytes[0] < 0x80 then Raised(bytes) else Inverted(bytes)
  }

  /** The number back from its sortable bytes. */
  function FromSortable(bytes: Bytes): nat
    requires bytes != []
  {
    BigEndian(if bytes[0] >= 0x80 then Lowered(bytes) else Inverted(bytes))
  }

  /** The bytes written one at a time, most significant first, and then flipped in place. */
  method SortableFloating(bits: nat, width: nat) returns (bytes: Bytes)
    requires width > 0
    ensures bytes == Sortable(bits, width)
  {
    bytes := [];
    var index := width;
    while index > 0
      invariant index <= width
      invariant bytes == BytesOf(ShiftedRight(bits, index), width - index)
    {
      bytes := bytes + [ShiftedRight(bits, index - 1) % 256];
      index := index - 1;
    }
    if bytes[0] < 0x80 {
      bytes := [bytes[0] + 0x80] + bytes[1..];
    } else {
      ghost var plain := bytes;
      for i := 0 to width
        invariant |bytes| == width
        invariant forall k :: 0 <= k < i ==> bytes[k] == 255 - plain[k]
        invariant forall k :: i <= k < width ==> bytes[k] == plain[k]
      {
        bytes := bytes[i := 255 - bytes[i]];
      }
      assert bytes == Inverted(plain);
    }
  }

  lemma SortableReadsBack(bits: nat, width: nat)
    requires width > 0 && bits < Pow256(width)
    ensures FromSortable(Sortable(bits, width)) == bits
  {
    BigEndianOfBytes(bits, width);
    FlippedTwice(BytesOf(bits, width));
    hide BytesOf, BigEndian, FromSortable, Flipped;
  }

  lemma FlippedTwice(bytes: Bytes)
    requires bytes != []
    ensures FromSortable(Flipped(bytes)) == BigEndian(bytes)
  {
    hide BigEndian;
    if bytes[0] < 0x80 {
      assert Raised(bytes)[1..] == bytes[1..];
      assert [bytes[0]] + bytes[1..] == bytes;
    } else {
      assert Inverted(Inverted(bytes)) == bytes;
    }
  }

  // ----- what the bytes are as a number

  lemma {:induction false} FirstByteWeighs(first: byte, rest: Bytes)
    ensures BigEndian([first] + rest) == first * Pow256(|rest|) + BigEndian(rest)
    decreases |rest|
  {
    var bytes := [first] + rest;
    if rest == [] {
      assert bytes[..0] == [];
    } else {
      var shorter, last := rest[..|rest| - 1], rest[|rest| - 1];
      FirstByteWeighs(first, shorter);
      assert bytes[..|bytes| - 1] == [first] + shorter;
      Regroup(first, Pow256(|shorter|), 256, BigEndian(shorter), last);
      assert Pow256(|rest|) == Pow256(|shorter|) * 256;
    }
  }

  lemma {:induction false} InvertedValue(bytes: Bytes)
    ensures BigEndian(Inverted(bytes)) == Pow256(|bytes|) - 1 - BigEndian(bytes)
  {
    if bytes != [] {
      var shorter := bytes[..|bytes| - 1];
      InvertedValue(shorter);
      assert Inverted(bytes)[..|bytes| - 1] == Inverted(shorter);
    }
  }

  /** The sortable bytes as a number: the positive numbers above the negative ones, and those reversed. */
  lemma SortableValue(bits: nat, format: Format)
    requires format.width > 0 && bits < Pow256(format.width)
    ensures BigEndian(Sortable(bits, format.width))
         == if bits < Half(format) then bits + Half(format) else 2 * Half(format) - 1 - bits
  {
    hide BytesOf, BigEndian, Pow256, Flipped;
    BigEndianOfBytes(bits, format.width);
    FlippedValue(BytesOf(bits, format.width));
  }

  lemma FlippedValue(bytes: Bytes)
    requires bytes != []
    ensures var half := 128 * Pow256(|bytes| - 1);
      BigEndian(Flipped(bytes)) == if BigEndian(bytes) < half then BigEndian(bytes) + half else 2 * half - 1 - BigEndian(bytes)
  {
    var weight := Pow256(|bytes| - 1);
    assert Pow256(|bytes|) == 256 * weight;
    TopBit(bytes);
    if bytes[0] >= 0x80 {
      InvertedValue(bytes);
    }
    hide BigEndian, Pow256, Inverted, Raised;
  }

  /** The top bit is set in the upper half of the numbers, and setting it adds that half. */
  lemma TopBit(bytes: Bytes)
    requires bytes != []
    ensures bytes[0] < 0x80 <==> BigEndian(bytes) < 128 * Pow256(|bytes| - 1)
    ensures bytes[0] < 0x80 ==> BigEndian(Raised(bytes)) == BigEndian(bytes) + 128 * Pow256(|bytes| - 1)
  {
    hide BigEndian, Pow256;
    var first, rest := bytes[0], bytes[1..];
    var weight := Pow256(|rest|);
    assert bytes == [first] + rest;
    FirstByteWeighs(first, rest);
    FirstByteDecides(first, BigEndian(rest), weight);
    if first < 0x80 {
      FirstByteWeighs(first + 0x80, rest);
      Distributes(first, 0x80, weight);
    }
  }

  lemma Distributes(a: nat, b: nat, c: nat)
    ensures (a + b) * c == a * c + b * c
  {
  }

  lemma FirstByteDecides(first: byte, rest: nat, weight: nat)
    requires rest < weight
    ensures first < 0x80 <==> first * weight + rest < 128 * weight
  {
    if first < 0x80 {
      MulMonotone(first, 127, weight);
    } else {
      MulMonotone(128, first, weight);
    }
  }

  /** Bytes in the order memcmp puts them. */
  predicate Before(a: Bytes, b: Bytes)
    requires |a| == |b|
  {
    a != [] && (a[0] < b[0] || (a[0] == b[0] && Before(a[1..], b[1..])))
  }

  /** Bytes compare as the numbers they are. */
  lemma {:induction false} BytesCompareAsNumbers(a: Bytes, b: Bytes)
    requires |a| == |b|
    ensures Before(a, b) <==> BigEndian(a) < BigEndian(b)
  {
    if a != [] {
      BytesCompareAsNumbers(a[1..], b[1..]);
      assert a == [a[0]] + a[1..] && b == [b[0]] + b[1..];
      FirstByteWeighs(a[0], a[1..]);
      FirstByteWeighs(b[0], b[1..]);
      var weight := Pow256(|a| - 1);
      hide BigEndian, Pow256;
      if a[0] < b[0] {
        MulMonotone(a[0] + 1, b[0], weight);
        MulSuccessor(a[0], weight);
      } else if b[0] < a[0] {
        MulMonotone(b[0] + 1, a[0], weight);
        MulSuccessor(b[0], weight);
      }
    }
  }

  // ----- the order of the numbers

  predicate Negative(bits: nat, format: Format)
    requires format.width > 0
  {
    bits >= Half(format)
  }

  /** The exponent and fraction together, without the sign. */
  function Magnitude(bits: nat, format: Format): nat
    requires format.width > 0 && bits < 2 * Half(format)
  {
    if bits >= Half(format) then bits - Half(format) else bits
  }

  /** The order totalOrder gives every two numbers, infinities and NaNs among them (section 5.10 of IEEE
      754-2008): the negative ones first, and those by falling magnitude. */
  predicate TotallyBefore(a: nat, b: nat, format: Format)
    requires format.width > 0 && a < 2 * Half(format) && b < 2 * Half(format)
  {
    if Negative(a, format) != Negative(b, format) then Negative(a, format)
    else if Negative(a, format) then Magnitude(a, format) > Magnitude(b, format)
    else Magnitude(a, format) < Magnitude(b, format)
  }

  lemma TwoHalves(format: Format)
    requires format.width > 0
    ensures Pow256(format.width) == 2 * Half(format) && Half(format) > 0
  {
  }

  /** The sortable bytes of two numbers compare as totalOrder does. */
  lemma SortsAsTotalOrder(a: nat, b: nat, format: Format)
    requires format.width > 0 && a < 2 * Half(format) && b < 2 * Half(format)
    ensures Before(Sortable(a, format.width), Sortable(b, format.width)) <==> TotallyBefore(a, b, format)
  {
    TwoHalves(format);
    SortableValue(a, format);
    SortableValue(b, format);
    BytesCompareAsNumbers(Sortable(a, format.width), Sortable(b, format.width));
    hide Before, Sortable, BigEndian, Pow256, Half;
  }

  // ----- their values

  /** The value of a finite magnitude in units of the least one: a subnormal is its fraction, a normal number its
      fraction behind a hidden one, shifted by its exponent. */
  function Units(magnitude: nat, fractions: nat): nat
    requires fractions > 0
  {
    if magnitude < fractions then magnitude
    else (fractions + magnitude % fractions) * TwoTo(magnitude / fractions - 1)
  }

  lemma NextUnits(magnitude: nat, fractions: nat)
    requires fractions > 0
    ensures Units(magnitude, fractions) < Units(magnitude + 1, fractions)
  {
    if magnitude + 1 == fractions {
      QuotientIs(fractions, fractions, 1, 0);
    } else if magnitude >= fractions {
      var exponent, fraction := magnitude / fractions, magnitude % fractions;
      DivMod(magnitude, fractions);
      ExponentIsPositive(magnitude, fractions);
      var scale := TwoTo(exponent - 1);
      if fraction + 1 < fractions {
        QuotientIs(magnitude + 1, fractions, exponent, fraction + 1);
        MulSuccessor(fractions + fraction, scale);
      } else {
        MulSuccessor(exponent, fractions);
        QuotientIs(magnitude + 1, fractions, exponent + 1, 0);
        assert TwoTo(exponent) == 2 * scale;
        TopOfTheBinade(fractions, scale);
      }
    }
  }

  lemma ExponentIsPositive(magnitude: nat, fractions: nat)
    requires 0 < fractions <= magnitude
    ensures magnitude / fractions >= 1
  {
    DivMod(magnitude, fractions);
    if magnitude / fractions < 1 {
      MulMonotone(magnitude / fractions, 0, fractions);
    }
  }

  lemma TopOfTheBinade(fractions: nat, scale: nat)
    requires scale >= 1 && fractions > 0
    ensures (fractions + (fractions - 1)) * scale < fractions * (2 * scale)
  {
    assert fractions * (2 * scale) == (2 * fractions) * scale;
    MulSuccessor(2 * fractions - 1, scale);
  }

  lemma {:induction false} UnitsGrow(a: nat, b: nat, fractions: nat)
    requires fractions > 0 && a < b
    ensures Units(a, fractions) < Units(b, fractions)
    decreases b
  {
    hide Units;
    NextUnits(b - 1, fractions);
    if a < b - 1 {
      UnitsGrow(a, b - 1, fractions);
    }
  }

  /** The value of a number in units of the least one its format has. */
  function Value(bits: nat, format: Format): int
    requires format.width > 0 && format.fractions > 0 && bits < 2 * Half(format)
  {
    var units: int := Units(Magnitude(bits, format), format.fractions);
    if Negative(bits, format) then -units else units
  }

  lemma UnitsSign(magnitude: nat, fractions: nat)
    requires fractions > 0
    ensures Units(magnitude, fractions) == 0 <==> magnitude == 0
  {
    if magnitude > 0 {
      UnitsGrow(0, magnitude, fractions);
    }
  }

  /** Of two finite numbers the sortable bytes of one stand before those of the other just when its value is
      less; the two zeros, which are equal, stand with the negative one first. */
  lemma SortsAsValues(a: nat, b: nat, format: Format)
    requires format.width > 0 && format.fractions > 0 && a < 2 * Half(format) && b < 2 * Half(format)
    ensures Before(Sortable(a, format.width), Sortable(b, format.width))
      <==> Value(a, format) < Value(b, format)
           || (Value(a, format) == Value(b, format) && Negative(a, format) && !Negative(b, format))
  {
    SortsAsTotalOrder(a, b, format);
    var m, n := Magnitude(a, format), Magnitude(b, format);
    UnitsSign(m, format.fractions);
    UnitsSign(n, format.fractions);
    if m < n {
      UnitsGrow(m, n, format.fractions);
    } else if n < m {
      UnitsGrow(n, m, format.fractions);
    }
    hide Before, Sortable, Units, Half;
  }

  // ----- float and double

  lemma FormatSizes()
    ensures Half(FLOAT32) == 0x8000_0000 && Half(FLOAT64) == 0x8000_0000_0000_0000
  {
    assert Pow256(1) == 256 && Pow256(2) == 0x1_0000 && Pow256(3) == 0x100_0000;
    assert Pow256(4) == 0x1_0000_0000 && Pow256(5) == 0x100_0000_0000;
    assert Pow256(6) == 0x1_0000_0000_0000 && Pow256(7) == 0x100_0000_0000_0000;
  }

  lemma {:induction false} TwoToSum(a: nat, b: nat)
    ensures TwoTo(a) * TwoTo(b) == TwoTo(a + b)
  {
    if a > 0 {
      TwoToSum(a - 1, b);
      assert TwoTo(a) == 2 * TwoTo(a - 1) && TwoTo(a + b) == 2 * TwoTo(a - 1 + b);
      hide TwoTo;
      Doubles(TwoTo(a - 1), TwoTo(b));
    }
  }

  lemma Doubles(a: int, b: int)
    ensures 2 * a * b == 2 * (a * b)
  {
  }

  /** The number one is as many units as it should be: the least float is 2^-149 and the least double 2^-1074. */
  lemma OneInUnits()
    ensures 0x3F80_0000 < 2 * Half(FLOAT32) && Value(0x3F80_0000, FLOAT32) == TwoTo(149)
    ensures 0x3FF0_0000_0000_0000 < 2 * Half(FLOAT64) && Value(0x3FF0_0000_0000_0000, FLOAT64) == TwoTo(1074)
  {
    hide TwoTo, Pow256;
    FormatSizes();
    QuotientIs(0x3F80_0000, 0x80_0000, 127, 0);
    QuotientIs(0x3FF0_0000_0000_0000, 0x10_0000_0000_0000, 1023, 0);
    TwoToSum(23, 126);
    TwoToSum(52, 1022);
    FractionsArePowers();
  }

  lemma FractionsArePowers()
    ensures FLOAT32.fractions == TwoTo(23) && FLOAT64.fractions == TwoTo(52)
  {
    assert TwoTo(8) == 256 && TwoTo(16) == 0x1_0000 && TwoTo(23) == 0x80_0000;
    assert TwoTo(31) == 0x8000_0000 && TwoTo(39) == 0x80_0000_0000 && TwoTo(47) == 0x8000_0000_0000;
  }

  /** The bytes written for two floats compare as their values, and so do those for two doubles. */
  lemma FloatsSort(a: nat, b: nat)
    requires a < 0x1_0000_0000 && b < 0x1_0000_0000
    ensures a < 2 * Half(FLOAT32) && b < 2 * Half(FLOAT32)
    ensures Before(Sortable(a, 4), Sortable(b, 4))
      <==> Value(a, FLOAT32) < Value(b, FLOAT32)
           || (Value(a, FLOAT32) == Value(b, FLOAT32) && a >= 0x8000_0000 > b)
  {
    FormatSizes();
    SortsAsValues(a, b, FLOAT32);
    hide Before, Sortable, Value, Half;
  }

  lemma DoublesSort(a: nat, b: nat)
    requires a < 0x1_0000_0000_0000_0000 && b < 0x1_0000_0000_0000_0000
    ensures a < 2 * Half(FLOAT64) && b < 2 * Half(FLOAT64)
    ensures Before(Sortable(a, 8), Sortable(b, 8))
      <==> Value(a, FLOAT64) < Value(b, FLOAT64)
           || (Value(a, FLOAT64) == Value(b, FLOAT64) && a >= 0x8000_0000_0000_0000 > b)
  {
    FormatSizes();
    SortsAsValues(a, b, FLOAT64);
    hide Before, Sortable, Value, Half;
  }
}
