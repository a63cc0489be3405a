/**
 Lexing composes over the block: the placeholders of the block are those of its statements in order, and its
 only semicolons are the three behind each statement and the last (call_builder.cpp, sql_binds.cpp,
 sql_statement.cpp).
 */
module SqlBlock {
  import opened Protocol
  import opened Characters
  import opened SqlLexer
  import opened SqlBinds
  import opened SqlComposite

  /** A piece of text in which a scanner sees these events, whatever stands behind it. */
  ghost predicate Reads(piece: string, seen: seq<Event>, binds: bool) {
    forall rest: string :: ReadsBefore(piece, seen, rest, binds)
  }

  ghost predicate ReadsBefore(piece: string, seen: seq<Event>, rest: string, binds: bool) {
    Events(piece + rest, 0, binds) == Behind(seen, ShiftedAll(Events(rest, 0, binds), |piece|))
  }

  // ----- shifting

  lemma {:induction false} ShiftJoins(a: seq<Event>, b: seq<Event>, d: nat)
    ensures Shifted(a + b, d) == Shifted(a, d) + Shifted(b, d)
  {
    if a == [] {
      assert a + b == b;
    } else {
      assert (a + b)[1..] == a[1..] + b;
      ShiftJoins(a[1..], b, d);
    }
  }

  lemma {:induction false} ShiftTwice(a: seq<Event>, d: nat, e: nat)
    ensures Shifted(Shifted(a, d), e) == Shifted(a, d + e)
  {
    if a != [] {
      assert Shifted(a, d)[1..] == Shifted(a[1..], d);
      ShiftTwice(a[1..], d, e);
    }
  }

  lemma JoinBefore(p: string, seenP: seq<Event>, q: string, seenQ: seq<Event>, rest: string, binds: bool)
    requires ReadsBefore(p, seenP, q + rest, binds) && ReadsBefore(q, seenQ, rest, binds)
    ensures ReadsBefore(p + q, seenP + Shifted(seenQ, |p|), rest, binds)
  {
    hide Events, Shifted;
    assert p + q + rest == p + (q + rest);
    var behind := Events(rest, 0, binds);
    if behind.Some? {
      var tail := Shifted(behind.value, |q|);
      ShiftJoins(seenQ, tail, |p|);
      ShiftTwice(behind.value, |q|, |p|);
      assert seenP + (Shifted(seenQ, |p|) + Shifted(tail, |p|)) == seenP + Shifted(seenQ, |p|) + Shifted(tail, |p|);
    }
  }

  /** Pieces that read on their own read together. */
  lemma ReadsJoin(p: string, seenP: seq<Event>, q: string, seenQ: seq<Event>, binds: bool)
    requires Reads(p, seenP, binds) && Reads(q, seenQ, binds)
    ensures Reads(p + q, seenP + Shifted(seenQ, |p|), binds)
  {
    hide ReadsBefore, Shifted;
    forall rest: string ensures ReadsBefore(p + q, seenP + Shifted(seenQ, |p|), rest, binds) {
      JoinBefore(p, seenP, q, seenQ, rest, binds);
    }
  }

  // ----- pieces

  predicate DullAt(s: string, i: nat)
    requires i < |s|
  {
    && s[i] !in {'\'', '"', ':', ';'}
    && (s[i] == '-' ==> i + 1 < |s| && s[i + 1] != '-')
    && (s[i] == '/' ==> i + 1 < |s| && s[i + 1] != '*')
    && (s[i] in {'q', 'Q'} ==> i + 1 < |s| && s[i + 1] != '\'')
  }

  /** Text in which no scanner sees anything. */
  ghost predicate Dull(s: string) {
    forall i :: 0 <= i < |s| ==> DullAt(s, i)
  }

  lemma {:induction false} DullFrom(s: string, rest: string, i: nat, binds: bool)
    requires Dull(s) && i <= |s|
    ensures Events(s + rest, i, binds) == Events(s + rest, |s|, binds)
    decreases |s| - i
  {
    if i < |s| {
      assert DullAt(s, i);
      DullSkipsNothing(s, rest, i);
      hide SkipAt;
      DullFrom(s, rest, i + 1, binds);
    }
  }

  lemma DullSkipsNothing(s: string, rest: string, i: nat)
    requires i < |s| && DullAt(s, i)
    ensures SkipAt(s + rest, i) == Nothing && !NameAt(s + rest, i) && (s + rest)[i] != ';'
  {
    var t := s + rest;
    assert t[i] == s[i] && (i + 1 < |s| ==> t[i + 1] == s[i + 1]);
  }

  lemma DullReads(s: string, binds: bool)
    requires Dull(s)
    ensures Reads(s, [], binds)
  {
    hide Dull, Events;
    forall rest: string
      ensures ReadsBefore(s, [], rest, binds)
    {
      DullFrom(s, rest, 0, binds);
      EventsBehind(s, rest, 0, binds);
      var behind := ShiftedAll(Events(rest, 0, binds), |s|);
      assert behind.Some? ==> [] + behind.value == behind.value;
    }
  }

  lemma SemicolonReads(binds: bool)
    ensures Reads(";", [Semicolon(0)], binds)
  {
    forall rest: string
      ensures ReadsBefore(";", [Semicolon(0)], rest, binds)
    {
      EventsBehind(";", rest, 0, binds);
    }
  }

  lemma {:induction false} QuoteEndsAt(s: string, i: nat, end: nat)
    requires i <= end && end + 1 < |s| && s[end] == '\'' && s[end + 1] != '\''
    requires forall k :: i <= k < end ==> s[k] != '\''
    ensures QuoteEnd(s, '\'', i) == Some(end + 1)
    decreases end - i
  {
    if i < end {
      QuoteEndsAt(s, i + 1, end);
    }
  }

  /** A quoted text with no quote in it and a parenthesis behind it. */
  lemma QuotedReads(body: string, binds: bool)
    requires '\'' !in body
    ensures Reads("'" + body + "')", [], binds)
  {
    var piece := "'" + body + "')";
    forall rest: string
      ensures ReadsBefore(piece, [], rest, binds)
    {
      var s := piece + rest;
      QuotedSkipped(body, rest);
      hide SkipAt;
      assert Events(s, 0, binds) == Events(s, |body| + 2, binds);
      assert Events(s, |body| + 2, binds) == Events(s, |piece|, binds);
      EventsBehind(piece, rest, 0, binds);
      var behind := ShiftedAll(Events(rest, 0, binds), |piece|);
      assert behind.Some? ==> [] + behind.value == behind.value;
    }
  }

  lemma QuotedSkipped(body: string, rest: string)
    requires '\'' !in body
    ensures var s := "'" + body + "')" + rest;
      SkipAt(s, 0) == To(|body| + 2) && SkipAt(s, |body| + 2) == Nothing && s[|body| + 2] == ')'
  {
    var s := "'" + body + "')" + rest;
    assert s[|body| + 1] == '\'' && s[|body| + 2] == ')';
    forall k | 1 <= k < |body| + 1 ensures s[k] != '\'' {
      assert s[k] == body[k - 1];
    }
    QuoteEndsAt(s, 1, |body| + 1);
  }

  /** A statement everything in is terminated, and the end of its line. */
  lemma StatementReads(sql: string, binds: bool)
    requires Events(sql, 0, binds).Some?
    ensures Reads(sql + "\n", Events(sql, 0, binds).value, binds)
  {
    hide Events;
    forall rest: string
      ensures ReadsBefore(sql + "\n", Events(sql, 0, binds).value, rest, binds)
    {
      EventsJoin(sql, rest, 0, binds);
    }
  }

  // ----- the check behind a statement

  lemma {:induction false} DigitsOnly(n: nat)
    ensures forall i :: 0 <= i < |Digits(n)| ==> Digit(Digits(n)[i])
  {
    if n >= 10 {
      DigitsOnly(n / 10);
    }
  }

  lemma DigitsDull(n: nat)
    ensures Dull(Digits(n)) && '\'' !in Digits(n)
  {
    DigitsOnly(n);
    hide Digits;
  }

  lemma DullJoin(a: string, b: string)
    requires Dull(a) && Dull(b)
    ensures Dull(a + b)
  {
    var s := a + b;
    forall i | 0 <= i < |s| ensures DullAt(s, i) {
      if i < |a| {
        assert DullAt(a, i) && s[i] == a[i] && (i + 1 < |a| ==> s[i + 1] == a[i + 1]);
      } else {
        var j := i - |a|;
        assert DullAt(b, j) && s[i] == b[j] && (j + 1 < |b| ==> s[i + 1] == b[j + 1]);
      }
    }
  }

  function Condition(rows: nat): string {
    "\nIF SQL%ROWCOUNT <> " + Digits(rows) + " THEN RAISE_APPLICATION" + "_ERROR(-20906, "
  }

  function Message(number: nat): string {
    "DML composite operation " + Digits(number) + " affected row count mismatch"
  }

  lemma ConditionDull(rows: nat)
    ensures Dull(Condition(rows))
  {
    DigitsDull(rows);
    assert Dull("\nIF SQL%ROWCOUNT <> ");
    assert Dull(" THEN RAISE_APPLICATION");
    assert Dull("_ERROR(-20906, ");
    hide Dull, Digits;
    DullJoin("\nIF SQL%ROWCOUNT <> ", Digits(rows));
    DullJoin("\nIF SQL%ROWCOUNT <> " + Digits(rows), " THEN RAISE_APPLICATION");
    DullJoin("\nIF SQL%ROWCOUNT <> " + Digits(rows) + " THEN RAISE_APPLICATION", "_ERROR(-20906, ");
  }

  lemma MessageHasNoQuote(number: nat)
    ensures '\'' !in Message(number)
  {
    DigitsDull(number);
    assert '\'' !in "DML composite operation ";
    assert '\'' !in " affected row count mismatch";
    hide Digits;
  }

  /** Where the builder writes its three semicolons behind a statement. */
  function CheckEvents(rows: nat, number: nat): seq<Event> {
    var second := 1 + |Condition(rows)| + |Message(number)| + 3;
    [Semicolon(0), Semicolon(second), Semicolon(second + 8)]
  }

  lemma QuietJoin(p: string, seen: seq<Event>, q: string, binds: bool)
    requires Reads(p, seen, binds) && Reads(q, [], binds)
    ensures Reads(p + q, seen, binds)
  {
    hide Reads;
    ReadsJoin(p, seen, q, [], binds);
    assert Shifted([], |p|) == [];
    assert seen + [] == seen;
  }

  lemma SemicolonJoin(p: string, seen: seq<Event>, binds: bool)
    requires Reads(p, seen, binds)
    ensures Reads(p + ";", seen + [Semicolon(|p|)], binds)
  {
    SemicolonReads(binds);
    hide Reads;
    ReadsJoin(p, seen, ";", [Semicolon(0)], binds);
    assert Shifted([Semicolon(0)], |p|) == [Semicolon(|p|)] by {
      assert [Semicolon(0)][1..] == [];
    }
  }

  /** A semicolon, quiet text, and quoted text. */
  lemma OpeningReads(quiet: string, body: string, binds: bool)
    requires Dull(quiet) && '\'' !in body
    ensures Reads(";" + quiet + ("'" + body + "')"), [Semicolon(0)], binds)
  {
    hide Dull, Reads;
    SemicolonReads(binds);
    DullReads(quiet, binds);
    QuotedReads(body, binds);
    QuietJoin(";", [Semicolon(0)], quiet, binds);
    QuietJoin(";" + quiet, [Semicolon(0)], "'" + body + "')", binds);
  }

  /** A semicolon, quiet text, a semicolon, and quiet text. */
  lemma ClosingReads(first: string, quiet: string, last: string, binds: bool)
    requires Reads(first, [Semicolon(0)], binds) && Dull(quiet) && Dull(last)
    ensures Reads(first + ";" + quiet + ";" + last,
                  [Semicolon(0), Semicolon(|first|), Semicolon(|first| + 1 + |quiet|)], binds)
  {
    hide Dull, Reads;
    var two := [Semicolon(0), Semicolon(|first|)];
    var three := [Semicolon(0), Semicolon(|first|), Semicolon(|first| + 1 + |quiet|)];
    DullReads(quiet, binds);
    DullReads(last, binds);
    SemicolonJoin(first, [Semicolon(0)], binds);
    assert [Semicolon(0)] + [Semicolon(|first|)] == two;
    QuietJoin(first + ";", two, quiet, binds);
    SemicolonJoin(first + ";" + quiet, two, binds);
    assert two + [Semicolon(|first + ";" + quiet|)] == three;
    QuietJoin(first + ";" + quiet + ";", three, last, binds);
  }

  lemma CheckReads(rows: nat, number: nat, binds: bool)
    ensures Reads(Check(rows, number), CheckEvents(rows, number), binds)
  {
    ConditionDull(rows);
    MessageHasNoQuote(number);
    assert Dull(" END IF") && Dull("\n");
    CheckText(rows, number);
    hide Dull, Reads, Condition, Message, Check;
    OpeningReads(Condition(rows), Message(number), binds);
    ClosingReads(";" + Condition(rows) + ("'" + Message(number) + "')"), " END IF", "\n", binds);
  }

  lemma CheckText(rows: nat, number: nat)
    ensures Check(rows, number)
         == ";" + Condition(rows) + ("'" + Message(number) + "')") + ";" + " END IF" + ";" + "\n"
  {
  }

  // ----- the block

  /** What is seen in a statement and the check behind it. */
  function SectionEvents(operation: Operation, number: nat, binds: bool): seq<Event>
    requires Events(operation.sql, 0, binds).Some?
  {
    Events(operation.sql, 0, binds).value + Shifted(CheckEvents(operation.expectedRows, number), |operation.sql| + 1)
  }

  lemma SectionReads(operation: Operation, number: nat, binds: bool)
    requires Events(operation.sql, 0, binds).Some?
    ensures Reads(Section(operation, number), SectionEvents(operation, number, binds), binds)
  {
    hide Reads, Events, Check, CheckEvents, Shifted;
    StatementReads(operation.sql, binds);
    CheckReads(operation.expectedRows, number, binds);
    ReadsJoin(operation.sql + "\n", Events(operation.sql, 0, binds).value,
              Check(operation.expectedRows, number), CheckEvents(operation.expectedRows, number), binds);
  }

  /** Every statement's comments and quotes are terminated. */
  ghost predicate AllTerminated(operations: seq<Operation>, binds: bool) {
    forall i :: 0 <= i < |operations| ==> Events(operations[i].sql, 0, binds).Some?
  }

  function SectionsEvents(operations: seq<Operation>, number: nat, binds: bool): seq<Event>
    requires AllTerminated(operations, binds)
  {
    if operations == [] then []
    else
      SectionEvents(operations[0], number, binds)
      + Shifted(SectionsEvents(operations[1..], number + 1, binds), |Section(operations[0], number)|)
  }

  lemma {:induction false} SectionsRead(operations: seq<Operation>, number: nat, binds: bool)
    requires AllTerminated(operations, binds)
    ensures Reads(Sections(operations, number), SectionsEvents(operations, number, binds), binds)
  {
    if operations == [] {
      DullReads("", binds);
    } else {
      hide Reads, Events, Section, SectionEvents, Shifted;
      SectionReads(operations[0], number, binds);
      SectionsRead(operations[1..], number + 1, binds);
      ReadsJoin(Section(operations[0], number), SectionEvents(operations[0], number, binds),
                Sections(operations[1..], number + 1), SectionsEvents(operations[1..], number + 1, binds), binds);
    }
  }

  /** Everything the scanners see in the block. */
  function BlockEvents(operations: seq<Operation>, binds: bool): seq<Event>
    requires AllTerminated(operations, binds)
  {
    Shifted(SectionsEvents(operations, 1, binds), 6) + [Semicolon(|Block(operations)| - 1)]
  }

  lemma BlockReads(operations: seq<Operation>, binds: bool)
    requires AllTerminated(operations, binds)
    ensures Events(Block(operations), 0, binds) == Some(BlockEvents(operations, binds))
  {
    hide Sections, SectionsEvents, Shifted;
    assert Dull("BEGIN\n") && Dull("END");
    var sections, seen := Sections(operations, 1), SectionsEvents(operations, 1, binds);
    var whole := "BEGIN\n" + sections + "END";
    assert Reads(whole + ";", Shifted(seen, 6) + [Semicolon(|whole|)], binds) by {
      hide Reads, Dull, Events, Sections, SectionsEvents;
      SectionsRead(operations, 1, binds);
      DullReads("BEGIN\n", binds);
      DullReads("END", binds);
      ReadsJoin("BEGIN\n", [], sections, seen, binds);
      var none: seq<Event> := [];
      assert none + Shifted(seen, 6) == Shifted(seen, 6);
      QuietJoin("BEGIN\n" + sections, Shifted(seen, 6), "END", binds);
      SemicolonJoin(whole, Shifted(seen, 6), binds);
    }
    assert Block(operations) == whole + ";";
    ReadsAlone(whole + ";", Shifted(seen, 6) + [Semicolon(|whole|)], binds);
  }

  lemma ReadsAlone(piece: string, seen: seq<Event>, binds: bool)
    requires Reads(piece, seen, binds)
    ensures Events(piece, 0, binds) == Some(seen)
  {
    assert ReadsBefore(piece, seen, "", binds);
    assert piece + "" == piece;
    assert Events("", 0, binds) == Some([]);
    assert seen + Shifted([], |piece|) == seen;
  }

  // ----- its semicolons

  /** The semicolons the builder writes, whatever the statements are: only their lengths matter. */
  function Written(operations: seq<Operation>, number: nat): (events: seq<Event>)
    ensures |events| == 3 * |operations|
  {
    if operations == [] then []
    else
      Shifted(CheckEvents(operations[0].expectedRows, number), |operations[0].sql| + 1)
      + Shifted(Written(operations[1..], number + 1), |Section(operations[0], number)|)
  }

  lemma {:induction false} OnlyWritten(operations: seq<Operation>, number: nat)
    requires AllTerminated(operations, false)
    requires forall i :: 0 <= i < |operations| ==> NoTerminators(operations[i].sql)
    ensures SectionsEvents(operations, number, false) == Written(operations, number)
  {
    hide Events, Section, CheckEvents, Shifted;
    if operations != [] {
      OnlyWritten(operations[1..], number + 1);
      var check := Shifted(CheckEvents(operations[0].expectedRows, number), |operations[0].sql| + 1);
      assert NoTerminators(operations[0].sql);
      assert [] + check == check;
    }
  }

  /** In the block of statements that passed the terminator scan that scan sees the three semicolons behind each
      statement, the last one, and no other. */
  lemma BlockSemicolons(operations: seq<Operation>)
    requires forall i :: 0 <= i < |operations| ==> NoTerminators(operations[i].sql)
    ensures var seen := Shifted(Written(operations, 1), 6) + [Semicolon(|Block(operations)| - 1)];
      Events(Block(operations), 0, false) == Some(seen) && |seen| == 3 * |operations| + 1
  {
    hide Events, Written, Shifted, SectionsEvents;
    assert forall i :: 0 <= i < |operations| ==> NoTerminators(operations[i].sql);
    BlockReads(operations, false);
    OnlyWritten(operations, 1);
  }

  // ----- its placeholders

  lemma {:induction false} CanonicalJoin(a: seq<Event>, b: seq<Event>)
    ensures CanonicalNames(a + b)
         == if CanonicalNames(a).None? then None else Behind(CanonicalNames(a).value, CanonicalNames(b))
  {
    hide Canonical;
    if a == [] {
      assert a + b == b;
      assert CanonicalNames(b).Some? ==> [] + CanonicalNames(b).value == CanonicalNames(b).value;
    } else {
      assert (a + b)[1..] == a[1..] + b;
      CanonicalJoin(a[1..], b);
      if a[0].Name? && Canonical(a[0].text).Some? && CanonicalNames(a[1..]).Some? {
        BehindTwice([Canonical(a[0].text).value], CanonicalNames(a[1..]).value, CanonicalNames(b));
      }
    }
  }

  lemma {:induction false} CanonicalShift(a: seq<Event>, d: nat)
    ensures CanonicalNames(Shifted(a, d)) == CanonicalNames(a)
  {
    hide Canonical;
    if a != [] {
      assert Shifted(a, d)[1..] == Shifted(a[1..], d);
      CanonicalShift(a[1..], d);
    }
  }

  lemma CheckHasNoNames(rows: nat, number: nat)
    ensures CanonicalNames(CheckEvents(rows, number)) == Some([])
  {
    hide Condition, Message;
    var events := CheckEvents(rows, number);
    assert events[1..][1..][1..] == [];
    assert CanonicalNames(events[1..][1..]) == Some([]);
    assert CanonicalNames(events[1..]) == Some([]);
  }

  /** Every placeholder of every statement, in order. */
  function StatementNames(operations: seq<Operation>): Option<seq<string>> {
    if operations == [] then Some([])
    else
      var first := NamesFrom(operations[0].sql, 0);
      if first.None? then None else Behind(first.value, StatementNames(operations[1..]))
  }

  lemma SectionNames(operation: Operation, number: nat)
    requires Events(operation.sql, 0, true).Some?
    ensures CanonicalNames(SectionEvents(operation, number, true)) == NamesFrom(operation.sql, 0)
  {
    hide Events, CheckEvents, CanonicalNames;
    var own := Events(operation.sql, 0, true).value;
    var check := CheckEvents(operation.expectedRows, number);
    CanonicalJoin(own, Shifted(check, |operation.sql| + 1));
    CanonicalShift(check, |operation.sql| + 1);
    CheckHasNoNames(operation.expectedRows, number);
    assert CanonicalNames(own).Some? ==> CanonicalNames(own).value + [] == CanonicalNames(own).value;
  }

  lemma {:induction false} SectionsNames(operations: seq<Operation>, number: nat)
    requires AllTerminated(operations, true)
    ensures CanonicalNames(SectionsEvents(operations, number, true)) == StatementNames(operations)
  {
    hide Events, SectionEvents, CanonicalNames, NamesFrom, Section;
    if operations == [] {
      NoNames();
    } else {
      var rest := SectionsEvents(operations[1..], number + 1, true);
      SectionNames(operations[0], number);
      SectionsNames(operations[1..], number + 1);
      CanonicalShift(rest, |Section(operations[0], number)|);
      CanonicalJoin(SectionEvents(operations[0], number, true), Shifted(rest, |Section(operations[0], number)|));
    }
  }

  lemma NoNames()
    ensures CanonicalNames([]) == Some([])
  {
  }

  lemma LastHasNoName(at: nat)
    ensures CanonicalNames([Semicolon(at)]) == Some([])
  {
    assert [Semicolon(at)][1..] == [];
  }

  lemma BlockNames(operations: seq<Operation>)
    requires AllTerminated(operations, true)
    ensures NamesFrom(Block(operations), 0) == StatementNames(operations)
  {
    hide Events, CanonicalNames, Shifted, SectionsEvents, Sections, AllTerminated;
    BlockReads(operations, true);
    var seen := SectionsEvents(operations, 1, true);
    SectionsNames(operations, 1);
    CanonicalShift(seen, 6);
    CanonicalJoin(Shifted(seen, 6), [Semicolon(|Block(operations)| - 1)]);
    LastHasNoName(|Block(operations)| - 1);
    var names := StatementNames(operations);
    assert names.Some? ==> names.value + [] == names.value;
  }

  // ----- each placeholder once

  /** The placeholders of the statements one after the other. */
  function Together(operations: seq<Operation>): seq<string>
    requires forall i :: 0 <= i < |operations| ==> Placeholders(operations[i].sql).Some?
  {
    if operations == [] then [] else Placeholders(operations[0].sql).value + Together(operations[1..])
  }

  lemma {:induction false} DistinctFront(a: seq<string>, b: seq<string>)
    ensures EachOnce(EachOnce(a) + b) == EachOnce(a + b)
    decreases |b|
  {
    hide EachOnce;
    if b == [] {
      assert a + b == a && EachOnce(a) + b == EachOnce(a);
      DistinctIsDistinct(EachOnce(a));
    } else {
      var shorter, last := b[..|b| - 1], b[|b| - 1];
      DistinctFront(a, shorter);
      SameGrowth(EachOnce(a) + shorter, a + shorter, last);
      assert a + b == (a + shorter) + [last] && EachOnce(a) + b == (EachOnce(a) + shorter) + [last];
    }
  }

  lemma SameGrowth(a: seq<string>, b: seq<string>, last: string)
    requires EachOnce(a) == EachOnce(b)
    ensures EachOnce(a + [last]) == EachOnce(b + [last])
  {
    hide EachOnce;
    DistinctGrows(a, last);
    DistinctGrows(b, last);
  }

  lemma {:induction false} DistinctIsDistinct(a: seq<string>)
    requires forall i, j :: 0 <= i < j < |a| ==> a[i] != a[j]
    ensures EachOnce(a) == a
  {
    if a != [] {
      DistinctIsDistinct(a[..|a| - 1]);
      assert a == a[..|a| - 1] + [a[|a| - 1]];
    }
  }

  lemma AddTwice(a: seq<string>, d: seq<string>, b: seq<string>, last: string)
    requires EachOnce(a + d) == EachOnce(a + b) && (last in d <==> last in b)
    ensures EachOnce(a + (if last in d then d else d + [last])) == EachOnce(a + (b + [last]))
  {
    DistinctGrows(a + b, last);
    DistinctGrows(a + d, last);
    SameNames(a + b);
    hide EachOnce;
    assert a + (b + [last]) == (a + b) + [last];
    if last !in d {
      assert a + (d + [last]) == (a + d) + [last];
    }
  }

  lemma SameNames(names: seq<string>)
    ensures forall name :: name in EachOnce(names) <==> name in names
  {
  }

  /** Names that are already there add nothing. */
  lemma {:induction false} DistinctBack(a: seq<string>, b: seq<string>)
    ensures EachOnce(a + EachOnce(b)) == EachOnce(a + b)
    decreases |b|
  {
    DistinctOfNothing();
    hide EachOnce;
    if b != [] {
      var shorter, last := b[..|b| - 1], b[|b| - 1];
      DistinctBack(a, shorter);
      assert b == shorter + [last];
      DistinctGrows(shorter, last);
      SameNames(shorter);
      AddTwice(a, EachOnce(shorter), shorter, last);
    }
  }

  lemma DistinctOfNothing()
    ensures EachOnce([]) == []
  {
  }

  lemma {:induction false} TogetherDistinct(operations: seq<Operation>, before: seq<string>)
    requires forall i :: 0 <= i < |operations| ==> Placeholders(operations[i].sql).Some?
    ensures StatementNames(operations).Some?
    ensures EachOnce(before + StatementNames(operations).value) == EachOnce(before + Together(operations))
  {
    hide NamesFrom, EachOnce;
    if operations != [] {
      var names := NamesFrom(operations[0].sql, 0).value;
      assert Placeholders(operations[0].sql) == Some(EachOnce(names));
      var rest := operations[1..];
      TogetherDistinct(rest, before + names);
      var tail, together := StatementNames(rest).value, Together(rest);
      assert before + (names + tail) == before + names + tail;
      DistinctFront(before + names, together);
      DistinctBack(before, names);
      DistinctFront(before + EachOnce(names), together);
      assert before + (EachOnce(names) + together) == before + EachOnce(names) + together;
    }
  }

  // ----- its size

  lemma {:induction false} DigitsLength(n: nat, length: nat)
    requires length > 0 && n < PowerOfTen(length)
    ensures |Digits(n)| <= length
    decreases length
  {
    if n >= 10 {
      TenthBelow(n, PowerOfTen(length - 1));
      DigitsLength(n / 10, length - 1);
    }
  }

  lemma TenthBelow(n: nat, p: nat)
    requires n < 10 * p
    ensures n / 10 < p
  {
  }

  function PowerOfTen(n: nat): nat {
    if n == 0 then 1 else 10 * PowerOfTen(n - 1)
  }

  lemma SectionSize(operation: Operation, number: nat)
    requires operation.expectedRows <= MAX_EXPECTED_ROWS && number < 100
    ensures |Section(operation, number)| <= |operation.sql| + 200
  {
    assert PowerOfTen(2) == 100 && PowerOfTen(3) == 1000;
    assert PowerOfTen(5) == 100_000;
    assert PowerOfTen(7) == 10_000_000;
    DigitsLength(operation.expectedRows, 7);
    DigitsLength(number, 2);
    hide Digits;
  }

  function Total(operations: seq<Operation>): nat {
    if operations == [] then 0 else |operations[0].sql| + Total(operations[1..])
  }

  lemma {:induction false} TotalIsSqlBytes(operations: seq<Operation>)
    ensures Total(operations) == SqlBytes(operations)
  {
    if |operations| == 1 {
      assert operations[..0] == [];
    } else if operations != [] {
      var n := |operations|;
      TotalIsSqlBytes(operations[1..]);
      TotalIsSqlBytes(operations[..n - 1]);
      TotalIsSqlBytes(operations[1..][..n - 2]);
      assert operations[..n - 1][1..] == operations[1..][..n - 2];
      assert operations[1..][n - 2] == operations[n - 1];
    }
  }

  lemma {:induction false} SectionsSize(operations: seq<Operation>, number: nat)
    requires number + |operations| <= 100
    requires forall i :: 0 <= i < |operations| ==>
      operations[i].expectedRows <= MAX_EXPECTED_ROWS && '\0' !in operations[i].sql
    ensures |Sections(operations, number)| <= Total(operations) + 200 * |operations|
    ensures '\0' !in Sections(operations, number)
  {
    hide Section;
    if operations != [] {
      SectionSize(operations[0], number);
      SectionHasNoNul(operations[0], number);
      SectionsSize(operations[1..], number + 1);
    }
  }

  lemma SectionHasNoNul(operation: Operation, number: nat)
    requires '\0' !in operation.sql
    ensures '\0' !in Section(operation, number)
  {
    CheckText(operation.expectedRows, number);
    NoNulInCondition(operation.expectedRows);
    NoNulInMessage(number);
    hide Condition, Message, Check;
  }

  lemma NoNulInCondition(rows: nat)
    ensures '\0' !in Condition(rows)
  {
    DigitsOnly(rows);
    hide Digits;
  }

  lemma NoNulInMessage(number: nat)
    ensures '\0' !in Message(number)
  {
    DigitsOnly(number);
    hide Digits;
  }

  /** What every statement of an accepted block comes to. */
  ghost predicate EachScans(operations: seq<Operation>) {
    && |operations| <= MAX_OPERATIONS && SqlBytes(operations) <= MAX_COMPOSITE_SQL
    && forall i :: 0 <= i < |operations| ==>
         operations[i].expectedRows <= MAX_EXPECTED_ROWS && Placeholders(operations[i].sql).Some?
  }

  lemma BlockIsScannable(operations: seq<Operation>)
    requires EachScans(operations)
    ensures ScannableSize(Block(operations))
  {
    hide NamesFrom, Sections, SqlBytes;
    assert forall i :: 0 <= i < |operations| ==> '\0' !in operations[i].sql;
    TotalIsSqlBytes(operations);
    SectionsSize(operations, 1);
    var sections := Sections(operations, 1);
    assert forall i :: 0 <= i < |"BEGIN\n"| ==> "BEGIN\n"[i] != '\0';
    assert '\0' !in "END" + ";";
  }

  /**
   The placeholders of the block, in the order they first stand in it, are the ordered union of those of its
   statements: nothing is seen twice, nothing is lost in a comment or a quoted text of another statement, and
   the checks between the statements add nothing.
   */
  lemma BlockPlaceholders(operations: seq<Operation>)
    requires EachScans(operations)
    ensures Placeholders(Block(operations)) == Some(EachOnce(Together(operations)))
  {
    hide NamesFrom, EachOnce, Block, StatementNames, Together;
    BlockIsScannable(operations);
    forall i | 0 <= i < |operations| ensures Events(operations[i].sql, 0, true).Some? {
      PlaceholdersTerminated(operations[i].sql);
    }
    BlockNames(operations);
    TogetherDistinct(operations, []);
    assert [] + StatementNames(operations).value == StatementNames(operations).value;
    assert [] + Together(operations) == Together(operations);
  }

  lemma PlaceholdersTerminated(sql: string)
    requires Placeholders(sql).Some?
    ensures Events(sql, 0, true).Some?
  {
  }

  lemma {:induction false} InTogether(operations: seq<Operation>, name: string)
    requires forall i :: 0 <= i < |operations| ==> Placeholders(operations[i].sql).Some?
    ensures name in Together(operations)
      <==> exists i :: 0 <= i < |operations| && name in Placeholders(operations[i].sql).value
  {
    hide Placeholders;
    if operations != [] {
      InTogether(operations[1..], name);
      var rest := operations[1..];
      if i :| 0 <= i < |operations| && name in Placeholders(operations[i].sql).value {
        assert i > 0 ==> operations[i] == rest[i - 1];
      }
    }
  }

  /** Once each statement has passed, the last validation of the block refuses it just when some bind is used
      by no statement. */
  lemma RefusedOnlyForUnusedBinds(operations: seq<Operation>, arguments: seq<Bind>)
    requires EachScans(operations) && BindNames(arguments).Some?
    requires forall i :: 0 <= i < |operations| ==> OperationFits(operations[i], BindNames(arguments).value)
    ensures BindsMatch(Block(operations), arguments)
      <==> forall name :: name in BindNames(arguments).value ==>
             exists i :: 0 <= i < |operations| && name in Placeholders(operations[i].sql).value
  {
    hide Placeholders, BindNames, Block, EachOnce, Together, NoTerminators, FirstKeyword;
    BlockPlaceholders(operations);
    var names := BindNames(arguments).value;
    forall name: string
      ensures name in Together(operations)
        <==> exists i :: 0 <= i < |operations| && name in Placeholders(operations[i].sql).value
    {
      InTogether(operations, name);
    }
    assert forall name :: name in EachOnce(Together(operations)) <==> name in Together(operations);
  }

  /** The binds picked for a statement by its placeholders always match it. */
  lemma PickedBindsMatch(sql: string, picked: seq<Bind>)
    requires Placeholders(sql).Some? && |picked| == |Placeholders(sql).value|
    requires forall k :: 0 <= k < |picked| ==> Canonical(picked[k].name) == Some(Placeholders(sql).value[k])
    ensures BindNames(picked) == Placeholders(sql) && BindsMatch(sql, picked)
  {
    PlaceholdersDistinct(sql);
    hide Placeholders, Canonical;
    NamesOfPicked(picked, Placeholders(sql).value);
  }

  lemma {:induction false} NamesOfPicked(picked: seq<Bind>, names: seq<string>)
    requires |picked| == |names| && forall i, j :: 0 <= i < j < |names| ==> names[i] != names[j]
    requires forall k :: 0 <= k < |picked| ==> Canonical(picked[k].name) == Some(names[k])
    ensures BindNames(picked) == Some(names)
  {
    hide Canonical;
    if picked != [] {
      NamesOfPicked(picked[..|picked| - 1], names[..|names| - 1]);
      assert names == names[..|names| - 1] + [names[|names| - 1]];
    }
  }
}
