/**
 LOB values written through temporary LOBs (temp_lob.cpp): text cut at character boundaries, written piece by piece
 at running offsets, bound by locator, and released on every path.
 */
module TempLob {
  import opened Arithmetic
  import opened Protocol
  import opened Utf

  const THRESHOLD_BYTES: nat := 0x80_0000
  const MAXIMUM_BYTES: nat := 0x4000_0000
  const WRITE_CHUNK_BYTES: nat := 0x20_0000
  // the bounds of one wire message
  const MAX_LOB_CHUNK_BYTES: nat := 0x100_0000
  const MAX_FREE_LOCATORS: nat := 4096

  const CLOB: nat := 112

  // ----- pieces of text

  /** Back from `end` to a byte that continues nothing, the end of the text, or `begin`. */
  function BackFrom(text: Bytes, begin: nat, end: nat): (r: nat)
    requires begin <= end <= |text|
    ensures begin <= r <= end
    ensures r == begin || r == |text| || !Continues(text[r])
    ensures forall k :: r < k <= end && k < |text| ==> Continues(text[k])
    decreases end
  {
    if end < |text| && end > begin && Continues(text[end]) then BackFrom(text, begin, end - 1) else end
  }

  /** Where a piece that starts at `begin` ends; nothing when no character fits, which is not UTF-8. */
  method Utf8PieceEnd(text: Bytes, begin: nat, limit: nat) returns (end: Option<nat>)
    requires begin <= |text|
    ensures end == (var e := BackFrom(text, begin, Min(|text|, begin + limit)); if e == begin then None else Some(e))
  {
    var e := Min(|text|, begin + limit);
    while e < |text| && e > begin && Continues(text[e])
      invariant begin <= e <= |text|
      invariant BackFrom(text, begin, Min(|text|, begin + limit)) == BackFrom(text, begin, e)
      decreases e
    {
      e := e - 1;
    }
    return if e == begin then None else Some(e);
  }

  /** In text a piece of at least four bytes makes progress and ends where a character ends. */
  lemma PieceEndsOnABoundary(text: Text, characters: nat, begin: nat, limit: nat) returns (more: nat)
    requires Boundary(text, characters, begin) && begin < |Utf8(text)| && limit >= 4
    ensures var end := BackFrom(Utf8(text), begin, Min(|Utf8(text)|, begin + limit));
      begin < end <= begin + limit && Boundary(text, more, end) && more > characters
  {
    var bytes := Utf8(text);
    var whole := Min(|bytes|, begin + limit);
    var end := BackFrom(bytes, begin, whole);
    assert text[..|text|] == text;
    assert characters < |text|;
    if whole == |bytes| {
      assert end == |bytes|;
      more := |text|;
    } else {
      NextBoundary(text, characters, begin);
      var next := |Utf8(text[..characters + 1])|;
      BoundaryStarts(text, characters + 1, next);
      assert characters + 1 < |text|;
      assert end >= next;
      more := StartsHere(text, end);
      if more <= characters {
        if more < characters {
          BoundaryOrder(text, more, characters);
        }
      }
    }
  }

  // ----- what the pieces convert to

  lemma DecodesAlone(a: Bytes, b: Bytes)
    requires a != [] && DecodeFirst(a).Some?
    ensures DecodeFirst(a + b) == DecodeFirst(a)
  {
    var lead := LeadOf(a[0]).value;
    assert (a + b)[1..] == a[1..] + b;
    ContinuedAlone(lead.bits, a[1..], b, lead.extra);
  }

  lemma {:induction false} ContinuedAlone(bits: nat, a: Bytes, b: Bytes, count: nat)
    requires count <= |a|
    ensures Continued(bits, a + b, count) == Continued(bits, a, count)
    decreases count
  {
    if count > 0 && Continues(a[0]) {
      assert (a + b)[1..] == a[1..] + b;
      ContinuedAlone(bits * 64 + (a[0] - 0x80), a[1..], b, count - 1);
    }
  }

  /** Pieces that convert on their own convert together. */
  lemma {:induction false} ConversionJoins(a: Bytes, b: Bytes)
    requires ToUtf16(a).Some?
    ensures ToUtf16(a + b) == Behind(ToUtf16(a).value, ToUtf16(b))
    decreases |a|
  {
    hide DecodeFirst, Utf16Of;
    if a == [] {
      assert a + b == b;
      assert ToUtf16(b).Some? ==> [] + ToUtf16(b).value == ToUtf16(b).value;
    } else {
      var first := DecodeFirst(a).value;
      DecodesAlone(a, b);
      assert (a + b)[first.1..] == a[first.1..] + b;
      ConversionJoins(a[first.1..], b);
      BehindTwice(Utf16Of(first.0), ToUtf16(a[first.1..]).value, ToUtf16(b));
    }
  }

  lemma ReadAtLeast(bytes: Bytes)
    requires bytes != [] && DecodeFirst(bytes).Some?
    ensures |Utf16Of(DecodeFirst(bytes).value.0)| <= 2 * DecodeFirst(bytes).value.1
  {
    var lead := LeadOf(bytes[0]).value;
    if lead.extra == 0 {
      assert Continued(lead.bits, bytes[1..], 0) == Some(lead.bits);
    }
  }

  lemma {:induction false} ConvertedSize(bytes: Bytes)
    requires ToUtf16(bytes).Some?
    ensures |ToUtf16(bytes).value| <= 2 * |bytes| && |ToUtf16(bytes).value| % 2 == 0
    ensures bytes != [] ==> ToUtf16(bytes).value != []
    decreases |bytes|
  {
    hide DecodeFirst, Utf16Of;
    if bytes != [] {
      ReadAtLeast(bytes);
      ConvertedSize(bytes[DecodeFirst(bytes).value.1..]);
    }
  }

  /** A piece of text between two boundaries is text. */
  lemma TextPieceConverts(text: Text, from: nat, to: nat, begin: nat, end: nat)
    requires Boundary(text, from, begin) && Boundary(text, to, end) && from <= to && begin <= end <= |Utf8(text)|
    ensures ToUtf16(Utf8(text)[begin..end]) == Some(Utf16(text[from..to]))
  {
    assert text[..to] == text[..from] + text[from..to];
    Utf8Joins(text[..from], text[from..to]);
    PrefixBytes(text, to);
    assert Utf8(text)[begin..end] == Utf8(text)[..end][begin..];
    assert Utf8(text)[begin..end] == Utf8(text[from..to]);
    TextConverts(text[from..to]);
  }

  // ----- binds

  /** A locator: which temporary LOB it names, and the server's own marks in it. */
  datatype Locator = Locator(lob: nat, mark: nat)

  datatype Value = Inline(bytes: Bytes) | ByLocator(locator: Locator)

  /** A bind; `lobContent` is the LOB type its value is content for, or 0. */
  datatype Bind = Bind(lobContent: nat, value: Option<Value>, oracleType: nat, charsetForm: nat, maximumBytes: nat)

  predicate IsLarge(bind: Bind) {
    bind.lobContent != 0 && bind.value.Some? && bind.value.value.Inline? && |bind.value.value.bytes| > THRESHOLD_BYTES
  }

  /** What a LOB bind's value is in its LOB: text in UTF-16, anything else as it is. */
  function ContentOf(lobContent: nat, bytes: Bytes): Option<Bytes> {
    if lobContent == CLOB then ToUtf16(bytes) else Some(bytes)
  }

  ghost predicate IsText(bytes: Bytes) {
    exists text: Text :: bytes == Utf8(text)
  }

  /** The bytes of a bind can be what it says they are. */
  ghost predicate Convertible(bind: Bind) {
    bind.value.Some? && bind.value.value.Inline? ==>
      |bind.value.value.bytes| <= MAXIMUM_BYTES && (bind.lobContent == CLOB ==> IsText(bind.value.value.bytes))
  }

  /** A bind that travels by locator: NULL as it was, or a LOB that holds exactly its content. */
  ghost predicate Carries(before: Bind, after: Bind, lobs: seq<Bytes>) {
    && after.oracleType == before.lobContent && after.lobContent == 0
    && after.charsetForm == 0 && after.maximumBytes == 0
    && (before.value.None? <==> after.value.None?)
    && (before.value.Some? ==>
          && before.value.value.Inline? && after.value.value.ByLocator?
          && after.value.value.locator.lob < |lobs|
          && ContentOf(before.lobContent, before.value.value.bytes) == Some(lobs[after.value.value.locator.lob]))
  }

  // ----- the server

  /** The bytes of a LOB after `data` is written at byte `at`. */
  function Overwritten(content: Bytes, at: nat, data: Bytes): Bytes {
    if at <= |content| then content[..at] + data + (if at + |data| <= |content| then content[at + |data|..] else [])
    else content + seq(at - |content|, _ => 0) + data
  }

  /** A session's temporary LOBs, any call on which the server may refuse. */
  class TemporaryLobWriter {
    const refuses: nat -> bool
    const marks: nat -> nat
    var calls: nat
    var lobs: seq<Bytes>
    var freed: seq<seq<Locator>>

    constructor (refuses: nat -> bool, marks: nat -> nat)
      ensures lobs == [] && freed == [] && calls == 0
    {
      this.refuses, this.marks := refuses, marks;
      calls, lobs, freed := 0, [], [];
    }

    ghost predicate RefusedBetween(first: nat, last: nat) {
      exists call :: first <= call < last && refuses(call)
    }

    method Create() returns (r: Result<Locator>)
      modifies `calls, `lobs
      ensures calls == old(calls) + 1 && (r.Err? <==> refuses(old(calls)))
      ensures r.Err? ==> lobs == old(lobs)
      ensures r.Ok? ==> r.value.lob == |old(lobs)| && lobs == old(lobs) + [[]]
    {
      calls := calls + 1;
      if refuses(calls - 1) {
        return Err(InvalidState);
      }
      lobs := lobs + [[]];
      return Ok(Locator(|lobs| - 1, marks(calls)));
    }

    /** Writes at a 1-based offset, counted in UTF-16 units for text and in bytes otherwise. */
    method Write(locator: Locator, text: bool, offset: nat, data: Bytes) returns (r: Result<Locator>)
      requires locator.lob < |lobs|
      modifies `calls, `lobs
      ensures calls == old(calls) + 1
      ensures r.Err? <==> offset == 0 || data == [] || |data| > MAX_LOB_CHUNK_BYTES || refuses(old(calls))
      ensures r.Err? ==> lobs == old(lobs)
      ensures r.Ok? ==> r.value.lob == locator.lob
      ensures r.Ok? ==>
        var at := (offset - 1) * (if text then 2 else 1);
        lobs == old(lobs)[locator.lob := Overwritten(old(lobs)[locator.lob], at, data)]
    {
      calls := calls + 1;
      if offset == 0 || data == [] || |data| > MAX_LOB_CHUNK_BYTES {
        return Err(Malformed);
      }
      if refuses(calls - 1) {
        return Err(InvalidState);
      }
      lobs := lobs[locator.lob := Overwritten(lobs[locator.lob], (offset - 1) * (if text then 2 else 1), data)];
      return Ok(Locator(locator.lob, marks(calls)));
    }

    /** Names locators to be released; more than a message holds are not sent at all. */
    method Free(locators: seq<Locator>) returns (r: Result<bool>)
      modifies `calls, `freed
      ensures |locators| == 0 || |locators| > MAX_FREE_LOCATORS ==> r.Err? && freed == old(freed)
      ensures 0 < |locators| <= MAX_FREE_LOCATORS ==>
        freed == old(freed) + [locators] && (r.Err? <==> refuses(old(calls)))
      ensures calls == old(calls) + 1
    {
      calls := calls + 1;
      if |locators| == 0 || |locators| > MAX_FREE_LOCATORS {
        return Err(Malformed);
      }
      freed := freed + [locators];
      return if refuses(calls - 1) then Err(InvalidState) else Ok(true);
    }
  }

  // ----- the scope

  class TemporaryLobScope {
    const writer: TemporaryLobWriter
    var locators: seq<Locator>

    constructor (writer: TemporaryLobWriter)
      requires writer.lobs == [] && writer.freed == []
      ensures this.writer == writer && Open()
    {
      this.writer := writer;
      locators := [];
    }

    /** Every temporary LOB created so far is recorded, once, and none has been released. */
    ghost predicate Open()
      reads this, writer
    {
      && |locators| == |writer.lobs| && writer.freed == []
      && forall i :: 0 <= i < |locators| ==> locators[i].lob == i
    }

    /** Binds one value by locator. Whatever fails, what was created is recorded. */
    method ConvertBind(bind: Bind) returns (r: Result<Bind>)
      requires Open() && (bind.value.Some? ==> bind.value.value.Inline?)
      modifies this`locators, writer`calls, writer`lobs
      ensures Open() && old(writer.lobs) <= writer.lobs && old(writer.calls) <= writer.calls
      ensures r.Ok? ==> Carries(bind, r.value, writer.lobs) && |writer.lobs| == |old(writer.lobs)| + Created(bind)
      ensures r.Err? && Convertible(bind) ==> writer.RefusedBetween(old(writer.calls), writer.calls)
    {
      hide ToUtf16, Overwritten, IsText;
      if bind.value.None? {
        return Ok(Bind(0, None, bind.lobContent, 0, 0));
      }
      var content := bind.value.value.bytes;
      if |content| > MAXIMUM_BYTES {
        return Err(LimitExceeded);
      }
      var created := writer.Create();
      if created.Err? {
        return Err(created.kind);
      }
      locators := locators + [created.value];
      var written := WriteContent(bind.lobContent, content, |locators| - 1);
      if written.Err? {
        return Err(written.kind);
      }
      return Ok(Bind(0, Some(ByLocator(written.value)), bind.lobContent, 0, 0));
    }

    /** Writes one piece of a value at the end of its LOB. */
    method WritePiece(lobContent: nat, slot: nat, offset: nat, ghost before: Bytes, piece: Bytes)
      returns (r: Result<nat>)
      requires Open() && slot < |locators| && 0 < |piece| <= WRITE_CHUNK_BYTES
      requires ContentOf(lobContent, before) == Some(writer.lobs[slot])
      requires (offset - 1) * UnitBytes(lobContent) == |writer.lobs[slot]| && offset > 0
      modifies this`locators, writer`calls, writer`lobs
      ensures Open() && writer.calls <= old(writer.calls) + 1 && old(writer.calls) <= writer.calls
      ensures OnlyChanges(old(writer.lobs), writer.lobs, slot)
      ensures r.Ok? ==> ContentOf(lobContent, before + piece) == Some(writer.lobs[slot])
      ensures r.Ok? ==> r.value > 0 && (r.value - 1) * UnitBytes(lobContent) == |writer.lobs[slot]|
      ensures r.Err? ==> ContentOf(lobContent, piece).None? || writer.RefusedBetween(old(writer.calls), writer.calls)
    {
      hide ToUtf16, ContentOf, Overwritten;
      var converted := if lobContent == CLOB then ToUtf16(piece) else Some(piece);
      PieceFits(lobContent, piece);
      if converted.None? {
        return Err(Malformed);
      }
      ContentJoins(lobContent, before, piece);
      AppendsAtTheEnd(writer.lobs[slot], converted.value);
      var locator := writer.Write(locators[slot], lobContent == CLOB, offset, converted.value);
      if locator.Err? {
        assert writer.refuses(old(writer.calls));
        return Err(locator.kind);
      }
      locators := locators[slot := locator.value];
      return Ok(offset + (if lobContent == CLOB then |converted.value| / 2 else |converted.value|));
    }

    /** Writes a value into the empty LOB recorded at `slot`, piece by piece. */
    method WriteContent(lobContent: nat, content: Bytes, slot: nat) returns (r: Result<Locator>)
      requires Open() && slot < |locators| && writer.lobs[slot] == []
      modifies this`locators, writer`calls, writer`lobs
      ensures Open() && old(writer.calls) <= writer.calls
      ensures OnlyChanges(old(writer.lobs), writer.lobs, slot)
      ensures r.Ok? ==> r.value.lob == slot && ContentOf(lobContent, content) == Some(writer.lobs[slot])
      ensures r.Err? && (lobContent == CLOB ==> IsText(content)) ==> writer.RefusedBetween(old(writer.calls), writer.calls)
    {
      hide ToUtf16, ContentOf, Utf8, IsText;
      ghost var isText := lobContent == CLOB && IsText(content);
      ghost var text: Text := if isText then TextOf(content) else [];
      ghost var characters: nat := 0;
      var offset: nat := 1;
      var begin: nat := 0;
      NothingWritten(lobContent, text);
      assert content[..0] == [];
      while begin < |content|
        invariant begin <= |content| && Open() && old(writer.calls) <= writer.calls
        invariant OnlyChanges(old(writer.lobs), writer.lobs, slot)
        invariant ContentOf(lobContent, content[..begin]) == Some(writer.lobs[slot])
        invariant offset > 0 && (offset - 1) * UnitBytes(lobContent) == |writer.lobs[slot]|
        invariant isText ==> content == Utf8(text) && Boundary(text, characters, begin)
        decreases |content| - begin
      {
        var end;
        end, characters := NextPiece(lobContent, content, begin, isText, text, characters);
        if end.None? {
          return Err(Malformed);
        }
        assert content[..end.value] == content[..begin] + content[begin..end.value];
        ghost var callsBefore := writer.calls;
        var next := WritePiece(lobContent, slot, offset, content[..begin], content[begin..end.value]);
        if next.Err? {
          return Err(next.kind);
        }
        offset := next.value;
        begin := end.value;
      }
      assert content[..begin] == content;
      return Ok(locators[slot]);
    }

    /** Converts the binds of one statement that are too large for an ordinary bind. */
    method Convert(binds: seq<Bind>) returns (r: Result<seq<Bind>>)
      requires Open()
      modifies this`locators, writer`calls, writer`lobs
      ensures Open() && old(writer.calls) <= writer.calls && old(writer.lobs) <= writer.lobs
      ensures r.Ok? ==> |r.value| == |binds| && forall i :: 0 <= i < |binds| ==>
        if IsLarge(binds[i]) then Carries(binds[i], r.value[i], writer.lobs) else r.value[i] == binds[i]
      ensures r.Ok? ==> |writer.lobs| == |old(writer.lobs)| + LargeCount(binds)
      ensures r.Err? && (forall i :: 0 <= i < |binds| ==> Convertible(binds[i])) ==>
        writer.RefusedBetween(old(writer.calls), writer.calls)
    {
      hide Convertible, Carries;
      var converted := [];
      for i := 0 to |binds|
        invariant |writer.lobs| == |old(writer.lobs)| + LargeCount(binds[..i])
        invariant Open() && old(writer.calls) <= writer.calls && old(writer.lobs) <= writer.lobs
        invariant |converted| == i
        invariant forall k :: 0 <= k < i ==>
          if IsLarge(binds[k]) then Carries(binds[k], converted[k], writer.lobs) else converted[k] == binds[k]
      {
        var bind := binds[i];
        assert binds[..i + 1][..i] == binds[..i];
        if IsLarge(bind) {
          ghost var before := writer.lobs;
          var next := ConvertBind(bind);
          if next.Err? {
            return Err(next.kind);
          }
          StillCarried(binds, converted, before, writer.lobs);
          bind := next.value;
        }
        converted := converted + [bind];
      }
      assert binds[..|binds|] == binds;
      return Ok(converted);
    }

    /** Converts one column of a group of rows: by locator in every row in which it is a LOB. */
    method ConvertColumn(binds: seq<Bind>) returns (r: Result<seq<Bind>>)
      requires Open() && forall i :: 0 <= i < |binds| ==> NotYetByLocator(binds[i])
      modifies this`locators, writer`calls, writer`lobs
      ensures Open() && old(writer.calls) <= writer.calls && old(writer.lobs) <= writer.lobs
      ensures r.Ok? ==> ColumnCarried(binds, r.value, writer.lobs)
      ensures r.Ok? ==> |writer.lobs| == |old(writer.lobs)| + ColumnCount(binds)
      ensures r.Err? && (forall i :: 0 <= i < |binds| ==> Convertible(binds[i])) ==>
        writer.RefusedBetween(old(writer.calls), writer.calls)
    {
      hide Convertible, Carries, IsLarge;
      var large := false;
      for i := 0 to |binds|
        invariant large <==> exists k :: 0 <= k < i && IsLarge(binds[k])
      {
        large := large || IsLarge(binds[i]);
      }
      if !large {
        return Ok(binds);
      }
      var converted := [];
      for i := 0 to |binds|
        invariant |writer.lobs| == |old(writer.lobs)| + CreatedCount(binds[..i])
        invariant Open() && old(writer.calls) <= writer.calls && old(writer.lobs) <= writer.lobs
        invariant |converted| == i
        invariant forall k :: 0 <= k < i ==>
          if binds[k].lobContent != 0 then Carries(binds[k], converted[k], writer.lobs) else converted[k] == binds[k]
      {
        var bind := binds[i];
        assert binds[..i + 1][..i] == binds[..i];
        if bind.lobContent != 0 {
          ghost var before := writer.lobs;
          var next := ConvertBind(bind);
          if next.Err? {
            return Err(next.kind);
          }
          StillCarriedInColumn(binds, converted, before, writer.lobs);
          bind := next.value;
        }
        converted := converted + [bind];
      }
      assert binds[..|binds|] == binds;
      return Ok(converted);
    }

    /** Converts a group of rows, one column of the first row after another. */
    method ConvertRows(rows: seq<seq<Bind>>) returns (r: Result<seq<seq<Bind>>>)
      requires Open() && forall i, c :: 0 <= i < |rows| && 0 <= c < |rows[i]| ==> NotYetByLocator(rows[i][c])
      modifies this`locators, writer`calls, writer`lobs
      ensures Open() && old(writer.calls) <= writer.calls && old(writer.lobs) <= writer.lobs
      ensures r.Ok? ==> ColumnsDone(rows, r.value, if rows == [] then 0 else |rows[0]|, writer.lobs)
      ensures r.Ok? ==> |writer.lobs| == |old(writer.lobs)| + GroupCount(rows)
      ensures r.Err? && (forall i, c :: 0 <= i < |rows| && 0 <= c < |rows[i]| ==> Convertible(rows[i][c])) ==>
        writer.RefusedBetween(old(writer.calls), writer.calls)
    {
      hide Convertible, ColumnCarried, ColumnCount, NotYetByLocator, ColumnsDone, ColumnOf;
      NoneDone(rows, writer.lobs);
      if rows == [] {
        return Ok(rows);
      }
      var converted := rows;
      for column := 0 to |rows[0]|
        invariant Open() && old(writer.calls) <= writer.calls && old(writer.lobs) <= writer.lobs
        invariant ColumnsDone(rows, converted, column, writer.lobs)
        invariant |writer.lobs| == |old(writer.lobs)| + ColumnsCount(rows, column)
      {
        ghost var before := writer.lobs;
        NotYetInColumn(rows, column);
        var next := ConvertColumn(ColumnOf(rows, column));
        if next.Err? {
          return Err(next.kind);
        }
        ColumnDone(rows, converted, column, next.value, before, writer.lobs);
        converted := PutColumn(converted, column, next.value);
      }
      return Ok(converted);
    }

    /** Frees what was created, by one message; a second release finds nothing. */
    method Release() returns (r: Result<bool>)
      requires |locators| > 0 ==> Open()
      modifies this`locators, writer`calls, writer`freed
      ensures locators == []
      ensures old(locators) == [] ==> r == Ok(true) && writer.freed == old(writer.freed) && writer.calls == old(writer.calls)
      ensures writer.calls >= old(writer.calls)
      ensures old(|locators|) > MAX_FREE_LOCATORS ==> r.Err? && writer.freed == old(writer.freed)
      ensures 0 < old(|locators|) <= MAX_FREE_LOCATORS ==>
        && writer.freed == old(writer.freed) + [old(locators)]
        && writer.calls == old(writer.calls) + 1 && (r.Err? <==> writer.refuses(old(writer.calls)))
    {
      if locators == [] {
        return Ok(true);
      }
      var pending := locators;
      locators := [];
      r := writer.Free(pending);
    }
  }

  /** Every temporary LOB of a session is named once, in one message; or there are none, or more than a message
      can name. */
  ghost predicate AllReleased(writer: TemporaryLobWriter)
    reads writer
  {
    if writer.lobs == [] || |writer.lobs| > MAX_FREE_LOCATORS then writer.freed == []
    else
      && |writer.freed| == 1 && |writer.freed[0]| == |writer.lobs|
      && forall i :: 0 <= i < |writer.lobs| ==> writer.freed[0][i].lob == i
  }

  /**
   Runs a statement with its large LOB values written to temporary LOBs. Whatever fails, the conversion, the
   statement or the release itself, each LOB that was created is named exactly once, in one release.
   */
  method WithTemporaryLobs(writer: TemporaryLobWriter, binds: seq<Bind>, succeeds: bool) returns (r: Result<seq<Bind>>)
    requires writer.lobs == [] && writer.freed == []
    modifies writer
    ensures AllReleased(writer)
    ensures r.Ok? ==> |r.value| == |binds| && forall i :: 0 <= i < |binds| ==>
      if IsLarge(binds[i]) then Carries(binds[i], r.value[i], writer.lobs) else r.value[i] == binds[i]
    ensures !succeeds || LargeCount(binds) > MAX_FREE_LOCATORS ==> r.Err?
    ensures r.Err? && succeeds && LargeCount(binds) <= MAX_FREE_LOCATORS && (forall i :: 0 <= i < |binds| ==> Convertible(binds[i])) ==>
      writer.RefusedBetween(old(writer.calls), writer.calls)
  {
    hide Carries, Convertible;
    var scope := new TemporaryLobScope(writer);
    var converted := scope.Convert(binds);
    if converted.Err? {
      // the failure path releases quietly
      var _ := scope.Release();
      return Err(converted.kind);
    }
    if !succeeds {
      var _ := scope.Release();
      return Err(InvalidState);
    }
    ghost var before := writer.calls;
    var released := scope.Release();
    assert released.Err? && |writer.lobs| <= MAX_FREE_LOCATORS ==> writer.refuses(before) && before < writer.calls;
    if released.Err? {
      var _ := scope.Release();
      return Err(released.kind);
    }
    return converted;
  }

  const MAX_GROUP_ROWS := 1024

  /**
   Runs one group of a batch with its large LOB values written to temporary LOBs, all released by one message. It fails
   when the statement or the server does, and whenever the group needs more LOBs than that message can name.
   */
  method RunGroup(writer: TemporaryLobWriter, rows: seq<seq<Bind>>, succeeds: bool) returns (r: Result<seq<seq<Bind>>>)
    requires writer.lobs == [] && writer.freed == []
    requires forall i, c :: 0 <= i < |rows| && 0 <= c < |rows[i]| ==> NotYetByLocator(rows[i][c])
    modifies writer
    ensures AllReleased(writer)
    ensures r.Ok? ==> ColumnsDone(rows, r.value, if rows == [] then 0 else |rows[0]|, writer.lobs)
    ensures !succeeds || GroupCount(rows) > MAX_FREE_LOCATORS ==> r.Err?
    ensures r.Err? && succeeds && GroupCount(rows) <= MAX_FREE_LOCATORS
            && (forall i, c :: 0 <= i < |rows| && 0 <= c < |rows[i]| ==> Convertible(rows[i][c]))
      ==> writer.RefusedBetween(old(writer.calls), writer.calls)
  {
    hide Convertible, ColumnsDone, GroupCount, NotYetByLocator;
    var scope := new TemporaryLobScope(writer);
    var converted := scope.ConvertRows(rows);
    if converted.Err? {
      var _ := scope.Release();
      return Err(converted.kind);
    }
    if !succeeds {
      var _ := scope.Release();
      return Err(InvalidState);
    }
    ghost var before := writer.calls;
    var released := scope.Release();
    assert released.Err? && |writer.lobs| <= MAX_FREE_LOCATORS ==> writer.refuses(before) && before < writer.calls;
    if released.Err? {
      var _ := scope.Release();
      return Err(released.kind);
    }
    return converted;
  }

  /** A column either travels as it was in every row, or by locator in every row in which it is a LOB; so the
      rows, which share the description of each bind, agree on it. */
  ghost predicate ColumnCarried(before: seq<Bind>, after: seq<Bind>, lobs: seq<Bytes>) {
    && |after| == |before|
    && if exists k :: 0 <= k < |before| && IsLarge(before[k]) then
         forall k :: 0 <= k < |before| ==>
           if before[k].lobContent != 0 then Carries(before[k], after[k], lobs) else after[k] == before[k]
       else after == before
  }

  /** A LOB bind that has not been converted before. */
  predicate NotYetByLocator(bind: Bind) {
    bind.value.Some? && bind.lobContent != 0 ==> bind.value.value.Inline?
  }

  /** What stands for a column a row does not have. */
  const ABSENT := Bind(0, None, 0, 0, 0)

  /** One column of a group of rows. */
  function ColumnOf(rows: seq<seq<Bind>>, column: nat): (binds: seq<Bind>)
    ensures |binds| == |rows|
    ensures forall i :: 0 <= i < |rows| ==> binds[i] == if column < |rows[i]| then rows[i][column] else ABSENT
  {
    if rows == [] then [] else [if column < |rows[0]| then rows[0][column] else ABSENT] + ColumnOf(rows[1..], column)
  }

  /** The rows with one column replaced, where they have it. */
  function PutColumn(rows: seq<seq<Bind>>, column: nat, binds: seq<Bind>): (r: seq<seq<Bind>>)
    requires |binds| == |rows|
    ensures |r| == |rows|
    ensures forall i :: 0 <= i < |rows| ==>
      r[i] == if column < |rows[i]| then rows[i][column := binds[i]] else rows[i]
  {
    if rows == [] then []
    else [if column < |rows[0]| then rows[0][column := binds[0]] else rows[0]] + PutColumn(rows[1..], column, binds[1..])
  }

  // ----- how many LOBs are created

  function Created(bind: Bind): nat {
    if bind.value.Some? then 1 else 0
  }

  /** One for each large bind of a statement. */
  function LargeCount(binds: seq<Bind>): nat {
    if binds == [] then 0
    else LargeCount(binds[..|binds| - 1]) + (if IsLarge(binds[|binds| - 1]) then 1 else 0)
  }

  /** One for each LOB bind with a value. */
  function CreatedCount(binds: seq<Bind>): nat {
    if binds == [] then 0
    else
      var last := binds[|binds| - 1];
      CreatedCount(binds[..|binds| - 1]) + (if last.lobContent != 0 then Created(last) else 0)
  }

  /** Those of a column, if any of its binds is large. */
  function ColumnCount(binds: seq<Bind>): nat {
    if exists k :: 0 <= k < |binds| && IsLarge(binds[k]) then CreatedCount(binds) else 0
  }

  function ColumnsCount(rows: seq<seq<Bind>>, columns: nat): nat {
    if columns == 0 then 0 else ColumnsCount(rows, columns - 1) + ColumnCount(ColumnOf(rows, columns - 1))
  }

  /** What a group of rows needs: its columns are those of the first row. */
  function GroupCount(rows: seq<seq<Bind>>): nat {
    if rows == [] then 0 else ColumnsCount(rows, |rows[0]|)
  }

  ghost predicate AllLarge(rows: seq<seq<Bind>>, columns: nat) {
    forall i :: 0 <= i < |rows| ==> |rows[i]| == columns && forall c :: 0 <= c < columns ==> IsLarge(rows[i][c])
  }

  /** A group of rows with nothing but large binds needs one LOB for each. */
  lemma {:induction false} AllLargeCount(rows: seq<seq<Bind>>, columns: nat, count: nat)
    requires AllLarge(rows, columns) && rows != [] && count <= columns
    ensures ColumnsCount(rows, count) == count * |rows|
  {
    hide ColumnOf, IsLarge;
    if count > 0 {
      AllLargeCount(rows, columns, count - 1);
      var binds := ColumnOf(rows, count - 1);
      forall i | 0 <= i < |binds| ensures IsLarge(binds[i]) {
        assert IsLarge(rows[i][count - 1]);
      }
      AllCreated(binds);
      assert IsLarge(binds[0]);
      MulSuccessor(count - 1, |rows|);
    }
  }

  lemma {:induction false} AllCreated(binds: seq<Bind>)
    requires forall i :: 0 <= i < |binds| ==> IsLarge(binds[i])
    ensures CreatedCount(binds) == |binds|
  {
    if binds != [] {
      AllCreated(binds[..|binds| - 1]);
    }
  }

  /** 1024 rows of five large binds need more LOBs than one message can release. */
  lemma FullGroupIsTooLarge(rows: seq<seq<Bind>>)
    requires |rows| == MAX_GROUP_ROWS && AllLarge(rows, 5)
    ensures GroupCount(rows) == 5120 > MAX_FREE_LOCATORS
  {
    hide IsLarge, ColumnsCount;
    AllLargeCount(rows, 5, 5);
  }

  ghost predicate SameShape(rows: seq<seq<Bind>>, after: seq<seq<Bind>>) {
    |after| == |rows| && forall i :: 0 <= i < |rows| ==> |after[i]| == |rows[i]|
  }

  lemma AbsentStays(rows: seq<seq<Bind>>, column: nat, binds: seq<Bind>, lobs: seq<Bytes>)
    requires ColumnCarried(ColumnOf(rows, column), binds, lobs)
    ensures |binds| == |rows| && forall i :: 0 <= i < |rows| && column >= |rows[i]| ==> binds[i] == ABSENT
  {
    hide Carries, IsLarge;
  }

  /** The first columns are carried and the others are as they were. */
  ghost predicate ColumnsDone(rows: seq<seq<Bind>>, converted: seq<seq<Bind>>, columns: nat, lobs: seq<Bytes>) {
    && SameShape(rows, converted)
    && (forall c: nat :: c < columns ==> ColumnCarried(ColumnOf(rows, c), ColumnOf(converted, c), lobs))
    && (forall c: nat :: c >= columns ==> ColumnOf(converted, c) == ColumnOf(rows, c))
  }

  lemma NoneDone(rows: seq<seq<Bind>>, lobs: seq<Bytes>)
    ensures ColumnsDone(rows, rows, 0, lobs)
  {
  }

  lemma ColumnDone(rows: seq<seq<Bind>>, converted: seq<seq<Bind>>, column: nat, binds: seq<Bind>, lobs: seq<Bytes>,
                   more: seq<Bytes>)
    requires ColumnsDone(rows, converted, column, lobs) && lobs <= more
    requires ColumnCarried(ColumnOf(rows, column), binds, more)
    ensures |binds| == |rows| == |converted| && ColumnsDone(rows, PutColumn(converted, column, binds), column + 1, more)
  {
    AbsentStays(rows, column, binds, more);
    assert SameShape(rows, converted);
    ColumnPut(converted, column, binds);
    hide ColumnCarried, PutColumn;
    OneMoreDone(rows, converted, PutColumn(converted, column, binds), column, lobs, more);
  }

  lemma OneMoreDone(rows: seq<seq<Bind>>, converted: seq<seq<Bind>>, after: seq<seq<Bind>>, column: nat, lobs: seq<Bytes>,
                    more: seq<Bytes>)
    requires ColumnsDone(rows, converted, column, lobs) && lobs <= more && SameShape(converted, after)
    requires ColumnCarried(ColumnOf(rows, column), ColumnOf(after, column), more)
    requires forall c: nat :: c != column ==> ColumnOf(after, c) == ColumnOf(converted, c)
    ensures ColumnsDone(rows, after, column + 1, more)
  {
    hide ColumnCarried, ColumnOf;
    forall c: nat | c < column + 1
      ensures ColumnCarried(ColumnOf(rows, c), ColumnOf(after, c), more)
    {
      if c < column {
        ColumnStillCarried(ColumnOf(rows, c), ColumnOf(converted, c), lobs, more);
      }
    }
  }

  lemma NotYetInColumn(rows: seq<seq<Bind>>, column: nat)
    requires forall i, c :: 0 <= i < |rows| && 0 <= c < |rows[i]| ==> NotYetByLocator(rows[i][c])
    ensures forall i :: 0 <= i < |rows| ==> NotYetByLocator(ColumnOf(rows, column)[i])
    ensures (forall i, c :: 0 <= i < |rows| && 0 <= c < |rows[i]| ==> Convertible(rows[i][c])) ==>
      forall i :: 0 <= i < |rows| ==> Convertible(ColumnOf(rows, column)[i])
  {
    hide IsText;
  }

  /** Replacing one column leaves every other as it was. */
  lemma ColumnPut(rows: seq<seq<Bind>>, column: nat, binds: seq<Bind>)
    requires |binds| == |rows| && forall i :: 0 <= i < |rows| && column >= |rows[i]| ==> binds[i] == ABSENT
    ensures SameShape(rows, PutColumn(rows, column, binds))
    ensures ColumnOf(PutColumn(rows, column, binds), column) == binds
    ensures forall c: nat :: c != column ==> ColumnOf(PutColumn(rows, column, binds), c) == ColumnOf(rows, c)
  {
    hide PutColumn, ColumnOf;
    var after := PutColumn(rows, column, binds);
    forall c: nat | c != column ensures ColumnOf(after, c) == ColumnOf(rows, c) {
      assert forall i :: 0 <= i < |rows| ==> ColumnOf(after, c)[i] == ColumnOf(rows, c)[i];
    }
    assert forall i :: 0 <= i < |rows| ==> ColumnOf(after, column)[i] == binds[i];
  }

  lemma ColumnStillCarried(before: seq<Bind>, after: seq<Bind>, lobs: seq<Bytes>, more: seq<Bytes>)
    requires ColumnCarried(before, after, lobs) && lobs <= more
    ensures ColumnCarried(before, after, more)
  {
    hide Carries, IsLarge;
    if exists k :: 0 <= k < |before| && IsLarge(before[k]) {
      StillCarriedInColumn(before, after, lobs, more);
    }
  }

  /** Rows that described a LOB column alike still do when it has been converted. */
  lemma ColumnStaysUniform(before: seq<Bind>, after: seq<Bind>, lobs: seq<Bytes>, i: nat, j: nat)
    requires ColumnCarried(before, after, lobs) && i < |before| && j < |before|
    requires before[i].lobContent == before[j].lobContent && before[i].oracleType == before[j].oracleType
    requires before[i].charsetForm == before[j].charsetForm
    ensures after[i].lobContent == after[j].lobContent && after[i].oracleType == after[j].oracleType
    ensures after[i].charsetForm == after[j].charsetForm
  {
  }

  lemma CarriesStays(before: Bind, after: Bind, lobs: seq<Bytes>, more: seq<Bytes>)
    requires Carries(before, after, lobs) && lobs <= more
    ensures Carries(before, after, more)
  {
  }

  lemma StillCarried(binds: seq<Bind>, converted: seq<Bind>, lobs: seq<Bytes>, more: seq<Bytes>)
    requires |converted| <= |binds| && lobs <= more
    requires forall k :: 0 <= k < |converted| ==>
      if IsLarge(binds[k]) then Carries(binds[k], converted[k], lobs) else converted[k] == binds[k]
    ensures forall k :: 0 <= k < |converted| ==>
      if IsLarge(binds[k]) then Carries(binds[k], converted[k], more) else converted[k] == binds[k]
  {
    hide Carries, IsLarge;
    forall k | 0 <= k < |converted| && IsLarge(binds[k]) ensures Carries(binds[k], converted[k], more) {
      CarriesStays(binds[k], converted[k], lobs, more);
    }
  }

  lemma StillCarriedInColumn(binds: seq<Bind>, converted: seq<Bind>, lobs: seq<Bytes>, more: seq<Bytes>)
    requires |converted| <= |binds| && lobs <= more
    requires forall k :: 0 <= k < |converted| ==>
      if binds[k].lobContent != 0 then Carries(binds[k], converted[k], lobs) else converted[k] == binds[k]
    ensures forall k :: 0 <= k < |converted| ==>
      if binds[k].lobContent != 0 then Carries(binds[k], converted[k], more) else converted[k] == binds[k]
  {
    hide Carries;
    forall k | 0 <= k < |converted| && binds[k].lobContent != 0 ensures Carries(binds[k], converted[k], more) {
      CarriesStays(binds[k], converted[k], lobs, more);
    }
  }

  function UnitBytes(lobContent: nat): nat {
    if lobContent == CLOB then 2 else 1
  }

  ghost predicate OnlyChanges(before: seq<Bytes>, after: seq<Bytes>, slot: nat) {
    |after| == |before| && forall k :: 0 <= k < |before| && k != slot ==> after[k] == before[k]
  }

  ghost function TextOf(bytes: Bytes): (text: Text)
    requires IsText(bytes)
    ensures bytes == Utf8(text)
  {
    var text: Text :| bytes == Utf8(text);
    text
  }

  lemma NothingWritten(lobContent: nat, text: Text)
    ensures ContentOf(lobContent, []) == Some([]) && Boundary(text, 0, 0)
  {
    assert text[..0] == [];
  }

  lemma ContentJoins(lobContent: nat, a: Bytes, b: Bytes)
    requires ContentOf(lobContent, a).Some? && ContentOf(lobContent, b).Some?
    ensures ContentOf(lobContent, a + b) == Some(ContentOf(lobContent, a).value + ContentOf(lobContent, b).value)
  {
    hide ToUtf16;
    if lobContent == CLOB {
      ConversionJoins(a, b);
    }
  }

  /** What a piece converts to fits one message, is not empty, and is a whole number of units. */
  lemma PieceFits(lobContent: nat, piece: Bytes)
    requires 0 < |piece| <= WRITE_CHUNK_BYTES
    ensures ContentOf(lobContent, piece) == if lobContent == CLOB then ToUtf16(piece) else Some(piece)
    ensures ContentOf(lobContent, piece).Some? ==>
      var content := ContentOf(lobContent, piece).value;
      0 < |content| <= MAX_LOB_CHUNK_BYTES && (lobContent == CLOB ==> |content| % 2 == 0)
  {
    hide ToUtf16;
    if lobContent == CLOB && ToUtf16(piece).Some? {
      ConvertedSize(piece);
    }
  }

  lemma AppendsAtTheEnd(content: Bytes, data: Bytes)
    ensures Overwritten(content, |content|, data) == content + data
  {
  }

  /** The end of the piece that starts at `begin`; in text, where a character ends. */
  method NextPiece(lobContent: nat, content: Bytes, begin: nat, ghost isText: bool, ghost text: Text, ghost characters: nat)
    returns (end: Option<nat>, ghost more: nat)
    requires begin < |content|
    requires isText ==> lobContent == CLOB && content == Utf8(text) && Boundary(text, characters, begin)
    ensures end.Some? ==> begin < end.value <= |content| && end.value <= begin + WRITE_CHUNK_BYTES
    ensures isText || lobContent != CLOB ==> end.Some? && ContentOf(lobContent, content[begin..end.value]).Some?
    ensures isText ==> Boundary(text, more, end.value)
  {
    hide ToUtf16, Utf8;
    more := characters;
    if lobContent == CLOB {
      end := Utf8PieceEnd(content, begin, WRITE_CHUNK_BYTES);
      if isText {
        more := PieceEndsOnABoundary(text, characters, begin, WRITE_CHUNK_BYTES);
        TextPieceConverts(text, characters, more, begin, end.value);
      }
    } else {
      end := Some(Min(|content|, begin + WRITE_CHUNK_BYTES));
    }
  }
}
