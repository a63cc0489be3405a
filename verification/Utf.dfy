/**
 UTF-8 (section 3 of RFC 3629) and big-endian UTF-16 (section 2.1 of RFC 2781), and the conversion between them
 that text for a CLOB goes through (ttc_lob.cpp).
 */
module Utf {
  import opened Arithmetic
  import opened Protocol

  /** A character: no surrogate, and nothing past the last plane. */
  type CodePoint = c: int | 0 <= c <= 0x10FFFF && !(0xD800 <= c <= 0xDFFF)

  type Text = seq<CodePoint>

  // ----- the encodings

  function Utf8Of(c: CodePoint): (bytes: Bytes)
    ensures 1 <= |bytes| <= 4
  {
    if c < 0x80 then [c]
    else if c < 0x800 then [0xC0 + c / 64, 0x80 + c % 64]
    else if c < 0x10000 then [0xE0 + c / 4096, 0x80 + c / 64 % 64, 0x80 + c % 64]
    else [0xF0 + c / 262144, 0x80 + c / 4096 % 64, 0x80 + c / 64 % 64, 0x80 + c % 64]
  }

  function Unit(unit: int): (bytes: Bytes)
    requires 0 <= unit < 0x10000
    ensures |bytes| == 2
  {
    [unit / 256, unit % 256]
  }

  function Utf16Of(c: CodePoint): (bytes: Bytes)
    ensures |bytes| == 2 || |bytes| == 4
  {
    if c < 0x10000 then Unit(c) else Unit(0xD800 + (c - 0x10000) / 1024) + Unit(0xDC00 + (c - 0x10000) % 1024)
  }

  function Utf8(text: Text): Bytes {
    if text == [] then [] else Utf8Of(text[0]) + Utf8(text[1..])
  }

  function Utf16(text: Text): (bytes: Bytes)
    ensures |bytes| % 2 == 0
  {
    if text == [] then [] else Utf16Of(text[0]) + Utf16(text[1..])
  }

  lemma {:induction false} Utf8Joins(a: Text, b: Text)
    ensures Utf8(a + b) == Utf8(a) + Utf8(b)
  {
    hide Utf8Of;
    if a == [] {
      assert a + b == b;
    } else {
      assert (a + b)[1..] == a[1..] + b;
      Utf8Joins(a[1..], b);
    }
  }

  // ----- reading UTF-8

  /** A byte that continues a character: its top two bits are 10. */
  predicate Continues(b: byte) {
    0x80 <= b < 0xC0
  }

  /** What a leading byte says: its own bits, how many bytes follow, and the least character written that way. */
  datatype Lead = Lead(bits: nat, extra: nat, minimum: nat)

  function LeadOf(lead: byte): Option<Lead> {
    if lead < 0x80 then Some(Lead(lead, 0, 0))
    else if 0xC2 <= lead <= 0xDF then Some(Lead(lead - 0xC0, 1, 0x80))
    else if 0xE0 <= lead <= 0xEF then Some(Lead(lead - 0xE0, 2, 0x800))
    else if 0xF0 <= lead <= 0xF4 then Some(Lead(lead - 0xF0, 3, 0x10000))
    else None
  }

  /** The bits of `count` bytes that must all continue a character, behind those already read. */
  function Continued(bits: nat, bytes: Bytes, count: nat): Option<nat>
    requires count <= |bytes|
    decreases count
  {
    if count == 0 then Some(bits)
    else if !Continues(bytes[0]) then None
    else Continued(bits * 64 + (bytes[0] - 0x80), bytes[1..], count - 1)
  }

  /** The first character and how many bytes it takes; nothing when the bytes are malformed. */
  function DecodeFirst(bytes: Bytes): (r: Option<(CodePoint, nat)>)
    requires bytes != []
    ensures r.Some? ==> 1 <= r.value.1 <= |bytes|
  {
    var lead := LeadOf(bytes[0]);
    if lead.None? || (lead.value.extra != 0 && lead.value.extra >= |bytes|) then None
    else
      var c := Continued(lead.value.bits, bytes[1..], lead.value.extra);
      if c.None? || c.value < lead.value.minimum || c.value > 0x10FFFF || 0xD800 <= c.value <= 0xDFFF then None
      else Some((c.value, lead.value.extra + 1))
  }

  /** The same text as UTF-16; nothing when it is not UTF-8. */
  function ToUtf16(bytes: Bytes): Option<Bytes>
    decreases |bytes|
  {
    if bytes == [] then Some([])
    else
      var first := DecodeFirst(bytes);
      if first.None? then None
      else
        var rest := ToUtf16(bytes[first.value.1..]);
        if rest.None? then None else Some(Utf16Of(first.value.0) + rest.value)
  }

  /** The conversion as a loop. */
  method EncodeUtf8ToUtf16(utf8: Bytes) returns (result: Option<Bytes>)
    ensures result == ToUtf16(utf8)
  {
    hide DecodeFirst, Utf16Of;
    var units: Bytes := [];
    var index := 0;
    assert utf8[0..] == utf8;
    assert ToUtf16(utf8).Some? ==> units + ToUtf16(utf8).value == ToUtf16(utf8).value;
    while index < |utf8|
      invariant index <= |utf8|
      invariant ToUtf16(utf8) == Behind(units, ToUtf16(utf8[index..]))
      decreases |utf8| - index
    {
      var first := DecodeFirst(utf8[index..]);
      if first.None? {
        return None;
      }
      var next := index + first.value.1;
      assert utf8[index..][first.value.1..] == utf8[next..];
      BehindTwice(units, Utf16Of(first.value.0), ToUtf16(utf8[next..]));
      units := units + Utf16Of(first.value.0);
      index := next;
    }
    assert ToUtf16(utf8[index..]) == Some([]) && units + [] == units;
    return Some(units);
  }

  // ----- what is written reads back

  lemma Continued1(bits: nat, x: byte, rest: Bytes)
    requires Continues(x)
    ensures Continued(bits, [x] + rest, 1) == Some(bits * 64 + (x - 0x80))
  {
    assert ([x] + rest)[1..] == rest;
  }

  lemma Continued2(bits: nat, x: byte, y: byte, rest: Bytes)
    requires Continues(x) && Continues(y)
    ensures Continued(bits, [x, y] + rest, 2) == Some((bits * 64 + (x - 0x80)) * 64 + (y - 0x80))
  {
    assert ([x, y] + rest)[1..] == [y] + rest;
    Continued1(bits * 64 + (x - 0x80), y, rest);
  }

  lemma Continued3(bits: nat, x: byte, y: byte, z: byte, rest: Bytes)
    requires Continues(x) && Continues(y) && Continues(z)
    ensures Continued(bits, [x, y, z] + rest, 3)
         == Some(((bits * 64 + (x - 0x80)) * 64 + (y - 0x80)) * 64 + (z - 0x80))
  {
    assert ([x, y, z] + rest)[1..] == [y, z] + rest;
    Continued2(bits * 64 + (x - 0x80), y, z, rest);
  }

  lemma TwoBytes(c: CodePoint, rest: Bytes)
    requires 0x80 <= c < 0x800
    ensures DecodeFirst(Utf8Of(c) + rest) == Some((c, 2))
  {
    var x := 0x80 + c % 64;
    var bytes := [0xC0 + c / 64, x] + rest;
    Continued1(c / 64, x, rest);
    assert bytes[1..] == [x] + rest;
    hide Continued;
    assert LeadOf(bytes[0]) == Some(Lead(c / 64, 1, 0x80));
    assert c / 64 * 64 + c % 64 == c;
  }

  lemma ThreeBytes(c: CodePoint, rest: Bytes)
    requires 0x800 <= c < 0x10000
    ensures DecodeFirst(Utf8Of(c) + rest) == Some((c, 3))
  {
    var x, y := 0x80 + c / 64 % 64, 0x80 + c % 64;
    var bytes := [0xE0 + c / 4096, x, y] + rest;
    Continued2(c / 4096, x, y, rest);
    assert bytes[1..] == [x, y] + rest;
    SixBitsEach(c);
    hide Continued;
    assert LeadOf(bytes[0]) == Some(Lead(c / 4096, 2, 0x800));
    assert (c / 4096 * 64 + c / 64 % 64) * 64 + c % 64 == c;
  }

  lemma FourBytes(c: CodePoint, rest: Bytes)
    requires 0x10000 <= c
    ensures DecodeFirst(Utf8Of(c) + rest) == Some((c, 4))
  {
    var x, y, z := 0x80 + c / 4096 % 64, 0x80 + c / 64 % 64, 0x80 + c % 64;
    var bytes := [0xF0 + c / 262144, x, y, z] + rest;
    Continued3(c / 262144, x, y, z, rest);
    assert bytes[1..] == [x, y, z] + rest;
    SixBitsEach(c);
    LeadOfFour(c / 262144);
    hide Continued, LeadOf;
    assert Utf8Of(c) + rest == bytes;
  }

  lemma LeadOfFour(bits: nat)
    requires bits <= 4
    ensures LeadOf(0xF0 + bits) == Some(Lead(bits, 3, 0x10000))
  {
  }

  /** A character is put together again from what its bytes carry, six bits each. */
  lemma SixBitsEach(c: nat)
    ensures c / 4096 * 64 + c / 64 % 64 == c / 64
    ensures ((c / 262144 * 64 + c / 4096 % 64) * 64 + c / 64 % 64) * 64 + c % 64 == c
  {
    DivideTwice(c, 64, 64);
    DivideTwice(c, 4096, 64);
    DivMod(c, 64);
    DivMod(c / 64, 64);
    DivMod(c / 4096, 64);
  }

  /** A character written as UTF-8 is read back from in front of anything. */
  lemma FirstReadsBack(c: CodePoint, rest: Bytes)
    ensures DecodeFirst(Utf8Of(c) + rest) == Some((c, |Utf8Of(c)|))
  {
    if c < 0x80 {
    } else if c < 0x800 {
      TwoBytes(c, rest);
    } else if c < 0x10000 {
      ThreeBytes(c, rest);
    } else {
      FourBytes(c, rest);
    }
  }

  /** Text converts to its own UTF-16. */
  lemma {:induction false} TextConverts(text: Text)
    ensures ToUtf16(Utf8(text)) == Some(Utf16(text))
  {
    hide Utf8Of, Utf16Of, DecodeFirst;
    if text != [] {
      var first := Utf8Of(text[0]);
      FirstReadsBack(text[0], Utf8(text[1..]));
      assert (first + Utf8(text[1..]))[|first|..] == Utf8(text[1..]);
      TextConverts(text[1..]);
    }
  }

  /** A character starts with a byte that continues nothing, and every other byte of it does. */
  lemma CharacterShape(c: CodePoint)
    ensures !Continues(Utf8Of(c)[0])
    ensures forall i :: 1 <= i < |Utf8Of(c)| ==> Continues(Utf8Of(c)[i])
  {
  }

  /** A place in the bytes of a text where a character starts or the text ends, as a number of characters. */
  ghost predicate Boundary(text: Text, characters: nat, at: nat) {
    characters <= |text| && at == |Utf8(text[..characters])|
  }

  lemma {:induction false} PrefixBytes(text: Text, n: nat)
    requires n <= |text|
    ensures |Utf8(text[..n])| <= |Utf8(text)| && Utf8(text)[..|Utf8(text[..n])|] == Utf8(text[..n])
    ensures Utf8(text)[|Utf8(text[..n])|..] == Utf8(text[n..])
  {
    assert text == text[..n] + text[n..];
    Utf8Joins(text[..n], text[n..]);
  }

  /** A byte that continues nothing stands where a character starts. */
  lemma {:induction false} StartsHere(text: Text, at: nat) returns (characters: nat)
    requires at < |Utf8(text)| && !Continues(Utf8(text)[at])
    ensures Boundary(text, characters, at)
    decreases |text|
  {
    var first, rest := Utf8Of(text[0]), text[1..];
    CharacterShape(text[0]);
    hide Utf8Of;
    if at == 0 {
      characters := 0;
    } else {
      assert at >= |first|;
      var more := StartsHere(rest, at - |first|);
      characters := more + 1;
      assert text[..characters][0] == text[0] && text[..characters][1..] == rest[..more];
    }
  }

  /** At a place where a character starts and the text goes on, one of at most four bytes starts. */
  lemma NextBoundary(text: Text, characters: nat, at: nat)
    requires Boundary(text, characters, at) && characters < |text|
    ensures at < |Utf8(text[..characters + 1])| <= at + 4
    ensures |Utf8(text[..characters + 1])| <= |Utf8(text)|
  {
    assert text[..characters + 1] == text[..characters] + [text[characters]];
    Utf8Joins(text[..characters], [text[characters]]);
    assert [text[characters]][1..] == [];
    PrefixBytes(text, characters + 1);
  }

  /** Where the text does not end a byte that continues nothing starts. */
  lemma BoundaryStarts(text: Text, characters: nat, at: nat)
    requires Boundary(text, characters, at)
    ensures at <= |Utf8(text)|
    ensures characters < |text| ==> at < |Utf8(text)| && !Continues(Utf8(text)[at])
  {
    PrefixBytes(text, characters);
    if characters < |text| {
      NextBoundary(text, characters, at);
      CharacterShape(text[characters]);
      var rest := text[characters..];
      assert Utf8(rest)[0] == Utf8Of(rest[0])[0];
      assert Utf8(text)[at] == Utf8(text)[at..][0];
    }
  }

  lemma BoundaryOrder(text: Text, a: nat, b: nat)
    requires a < b <= |text|
    ensures |Utf8(text[..a])| < |Utf8(text[..b])|
  {
    assert text[..b] == text[..a] + text[a..b];
    Utf8Joins(text[..a], text[a..b]);
  }
}
