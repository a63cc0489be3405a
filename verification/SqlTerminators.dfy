/**
 Where the statements of a PL/SQL block end for each of the two scanners (call_builder.cpp): for the terminator scanner
 only where the builder wrote a semicolon; for the placeholder scanner exactly when it sees none in any statement, which
 the builder does not ask.
 */
module SqlTerminators {
  import opened Protocol
  import opened Characters
  import opened SqlLexer
  import opened SqlBinds
  import opened SqlComposite
  import opened SqlBlock
  import opened SqlAgreement

  // ----- the semicolons of a block

  /** The semicolons the builder writes into a block. */
  function WrittenInBlock(operations: seq<Operation>): seq<Event> {
    Shifted(Written(operations, 1), 6) + [Semicolon(|Block(operations)| - 1)]
  }

  lemma {:induction false} SemicolonsJoin(a: seq<Event>, b: seq<Event>)
    ensures Semicolons(a + b) == Semicolons(a) + Semicolons(b)
  {
    if a == [] {
      assert a + b == b;
    } else {
      assert (a + b)[1..] == a[1..] + b;
      SemicolonsJoin(a[1..], b);
    }
  }

  lemma {:induction false} SemicolonsShift(a: seq<Event>, d: nat)
    ensures Semicolons(Shifted(a, d)) == Shifted(Semicolons(a), d)
  {
    if a != [] {
      assert Shifted(a, d)[1..] == Shifted(a[1..], d);
      SemicolonsShift(a[1..], d);
      if a[0].Semicolon? {
        ShiftJoins([a[0]], Semicolons(a[1..]), d);
        assert [a[0]][1..] == [];
      }
    }
  }

  lemma CheckIsSemicolons(rows: nat, number: nat)
    ensures Semicolons(CheckEvents(rows, number)) == CheckEvents(rows, number)
  {
    hide Condition, Message;
    var events := CheckEvents(rows, number);
    assert events[1..][1..][1..] == [];
    assert Semicolons(events[1..][1..]) == events[1..][1..];
    assert Semicolons(events[1..]) == events[1..];
  }

  /** The placeholder scanner sees no semicolon in this statement. */
  ghost predicate Whole(operation: Operation) {
    Events(operation.sql, 0, true).Some? && Semicolons(Events(operation.sql, 0, true).value) == []
  }

  lemma SectionSemicolons(operation: Operation, number: nat)
    requires Events(operation.sql, 0, true).Some?
    ensures Semicolons(SectionEvents(operation, number, true))
         == Semicolons(Events(operation.sql, 0, true).value)
            + Shifted(CheckEvents(operation.expectedRows, number), |operation.sql| + 1)
  {
    hide Events, CheckEvents, Shifted, Semicolons;
    var check := CheckEvents(operation.expectedRows, number);
    CheckIsSemicolons(operation.expectedRows, number);
    SemicolonsShift(check, |operation.sql| + 1);
    SemicolonsJoin(Events(operation.sql, 0, true).value, Shifted(check, |operation.sql| + 1));
  }

  /** The semicolons of the sections: those of the first statement, of its check, and of the sections behind. */
  lemma SectionsStep(operations: seq<Operation>, number: nat)
    requires AllTerminated(operations, true) && operations != []
    ensures Semicolons(SectionsEvents(operations, number, true))
         == Semicolons(Events(operations[0].sql, 0, true).value)
            + Shifted(CheckEvents(operations[0].expectedRows, number), |operations[0].sql| + 1)
            + Shifted(Semicolons(SectionsEvents(operations[1..], number + 1, true)), |Section(operations[0], number)|)
  {
    hide Events, CheckEvents, Section, SectionEvents, Semicolons, Shifted;
    var more, d := SectionsEvents(operations[1..], number + 1, true), |Section(operations[0], number)|;
    SectionSemicolons(operations[0], number);
    SemicolonsShift(more, d);
    SemicolonsJoin(SectionEvents(operations[0], number, true), Shifted(more, d));
  }

  /** The sections hold the semicolons written, and more unless every statement is whole. */
  lemma {:induction false} SectionsSemicolons(operations: seq<Operation>, number: nat)
    requires AllTerminated(operations, true)
    ensures var seen := Semicolons(SectionsEvents(operations, number, true));
      && |seen| >= 3 * |operations|
      && (seen == Written(operations, number) <==> forall i :: 0 <= i < |operations| ==> Whole(operations[i]))
      && (|seen| == 3 * |operations| <==> forall i :: 0 <= i < |operations| ==> Whole(operations[i]))
  {
    if operations == [] {
      assert Semicolons([]) == [];
    } else {
      SectionsSemicolons(operations[1..], number + 1);
      SectionsStep(operations, number);
      AllWhole(operations);
      hide SectionsEvents, Events, CheckEvents, Section, Semicolons, Shifted;
      var own := Semicolons(Events(operations[0].sql, 0, true).value);
      var check := Shifted(CheckEvents(operations[0].expectedRows, number), |operations[0].sql| + 1);
      assert |check| == 3 by {
        ThreeToCheck(operations[0].expectedRows, number);
      }
      if own == [] {
        assert own + check == check;
      }
    }
  }

  lemma ThreeToCheck(rows: nat, number: nat)
    ensures |CheckEvents(rows, number)| == 3
  {
  }

  lemma AllWhole(operations: seq<Operation>)
    requires operations != []
    ensures (forall i :: 0 <= i < |operations| ==> Whole(operations[i]))
      <==> Whole(operations[0]) && forall i :: 0 <= i < |operations[1..]| ==> Whole(operations[1..][i])
  {
    hide Whole;
    assert forall i :: 1 <= i < |operations| ==> operations[i] == operations[1..][i - 1];
  }

  /** For the placeholder scanner the semicolons of a block are those the builder wrote if and only if it sees none in
      any of the statements. */
  lemma BlockSemicolonsForBinds(operations: seq<Operation>)
    requires AllTerminated(operations, true)
    ensures Events(Block(operations), 0, true).Some?
    ensures Semicolons(Events(Block(operations), 0, true).value) == WrittenInBlock(operations)
      <==> forall i :: 0 <= i < |operations| ==> Whole(operations[i])
  {
    hide Events, Written, Shifted, SectionsEvents, Sections, Whole;
    var sections := SectionsEvents(operations, 1, true);
    var end := [Semicolon(|Block(operations)| - 1)];
    BlockReads(operations, true);
    SectionsSemicolons(operations, 1);
    SemicolonsShift(sections, 6);
    SemicolonsJoin(Shifted(sections, 6), end);
    assert Semicolons(end) == end by {
      assert end[1..] == [];
    }
    hide Semicolons;
    var seen := Semicolons(sections);
    if seen != Written(operations, 1) {
      assert |Shifted(seen, 6) + end| > |WrittenInBlock(operations)|;
    }
  }

  // ----- what the builder accepts

  lemma PassedBoth(operation: Operation, names: seq<string>)
    requires OperationFits(operation, names)
    ensures Events(operation.sql, 0, true).Some? && Events(operation.sql, 0, false) == Some([])
    ensures Whole(operation) <==> NonePassedOver(operation.sql, 0, 0)
  {
    hide FirstKeyword;
    ScannersAgree(operation.sql);
  }

  /** For every list of statements the builder accepts, the terminator scanner sees only the semicolons written; the
      placeholder scanner does if and only if, in each statement, neither scanner passes over a semicolon the other
      comes to. */
  lemma AcceptedBlockEnds(operations: seq<Operation>, arguments: seq<Bind>)
    requires Accepted(operations, arguments)
    ensures Events(Block(operations), 0, false) == Some(WrittenInBlock(operations))
    ensures Events(Block(operations), 0, true).Some?
    ensures Semicolons(Events(Block(operations), 0, true).value) == WrittenInBlock(operations)
      <==> forall i :: 0 <= i < |operations| ==> NonePassedOver(operations[i].sql, 0, 0)
  {
    hide OperationFits, Events, Whole, Block, NonePassedOver, BindNames, BindsMatch, WrittenInBlock;
    var names := BindNames(arguments).value;
    forall i | 0 <= i < |operations|
      ensures Events(operations[i].sql, 0, true).Some? && NoTerminators(operations[i].sql)
      ensures Whole(operations[i]) <==> NonePassedOver(operations[i].sql, 0, 0)
    {
      PassedBoth(operations[i], names);
    }
    BlockSemicolonsForBinds(operations);
    TerminatorsWritten(operations);
  }

  lemma TerminatorsWritten(operations: seq<Operation>)
    requires forall i :: 0 <= i < |operations| ==> NoTerminators(operations[i].sql)
    ensures Events(Block(operations), 0, false) == Some(WrittenInBlock(operations))
  {
    hide Events, Written, Block, Shifted;
    BlockSemicolons(operations);
  }

  // ----- a statement that is accepted and ends early

  /** The end of a comparison with the bind :q, as one scanner reads it: two quoted texts and a semicolon between them;
      as the other does: one q-quoted text. */
  ghost predicate EndsInQuote(sql: string) {
    && |sql| == 9 && sql[0] == ':' && sql[1] == 'q' && sql[2] == '\'' && sql[3] == '[' && sql[4] == '\''
    && sql[5] == ';' && sql[6] == '\'' && sql[7] == ']' && sql[8] == '\''
  }

  lemma QuoteSkips(sql: string)
    requires EndsInQuote(sql)
    ensures SkipAt(sql, 0) == Nothing && SkipAt(sql, 1) == To(9)
    ensures SkipAt(sql, 2) == To(5) && SkipAt(sql, 5) == Nothing && SkipAt(sql, 6) == To(9)
  {
    assert FindPair(sql, ']', '\'', 6) == Some(7);
    assert FindPair(sql, ']', '\'', 5) == Some(7);
    assert QuoteEnd(sql, '\'', 3) == Some(5);
    assert QuoteEnd(sql, '\'', 7) == Some(9);
  }

  lemma QuoteEvents(sql: string)
    requires EndsInQuote(sql)
    ensures Events(sql, 0, false) == Some([])
    ensures Events(sql, 0, true) == Some([Name(sql[1..2]), Semicolon(5)])
  {
    QuoteSkips(sql);
    assert NameEnd(sql, 1) == 2;
    hide SkipAt, NameEnd;
    assert Events(sql, 9, false) == Some([]) && Events(sql, 1, false) == Some([]);
    assert Events(sql, 9, true) == Some([]) && Events(sql, 6, true) == Some([]);
    var none: seq<Event> := [];
    assert [Semicolon(5)] + none == [Semicolon(5)];
    assert Events(sql, 5, true) == Some([Semicolon(5)]);
    assert Events(sql, 2, true) == Some([Semicolon(5)]);
    assert [Name(sql[1..2])] + [Semicolon(5)] == [Name(sql[1..2]), Semicolon(5)];
  }

  const DELETING := "DELETE FROM t WHERE a="
  const QUOTE := ":q'[';']'"

  /** A DELETE in which the terminator scanner sees no semicolon, and the placeholder scanner the bind :q and one. */
  function EarlyEnd(): string {
    DELETING + QUOTE
  }

  lemma Texts()
    ensures EndsInQuote(QUOTE) && QUOTE[1..2] == "q"
    ensures Dull(DELETING) && |DELETING| == 22
  {
  }

  lemma EarlyEndEvents()
    ensures NoTerminators(EarlyEnd()) && Events(EarlyEnd(), 0, true) == Some([Name("q"), Semicolon(27)])
  {
    hide DELETING, QUOTE, EndsInQuote, Dull, Events;
    Texts();
    QuoteEvents(QUOTE);
    DullReads(DELETING, false);
    DullReads(DELETING, true);
    assert ReadsBefore(DELETING, [], QUOTE, false) && ReadsBefore(DELETING, [], QUOTE, true);
    var seen := [Name("q"), Semicolon(5)];
    assert seen[1..] == [Semicolon(5)] && seen[1..][1..] == [];
    assert Shifted(seen, 22) == [Name("q"), Semicolon(27)];
    var none: seq<Event> := [];
    assert none + Shifted(seen, 22) == Shifted(seen, 22) && none + Shifted(none, 22) == none;
  }

  lemma EarlyEndIsDelete()
    ensures ScannableSize(EarlyEnd()) && IsDml(EarlyEnd())
  {
    var sql := EarlyEnd();
    assert forall i :: 0 <= i < |DELETING| ==> DELETING[i] != '\0';
    assert forall i :: 0 <= i < |QUOTE| ==> QUOTE[i] != '\0';
    assert DELETING[..6] == "DELETE" && DELETING[6] == ' ';
    assert sql[..6] == "DELETE" && sql[6] == ' ' by {
      hide DELETING, QUOTE;
    }
    hide DELETING, QUOTE;
    assert LettersEnd(sql, 6) == 6;
    assert LettersEnd(sql, 3) == 6;
    assert LettersEnd(sql, 0) == 6;
    assert TriviaEnd(sql, 0) == Some(0);
    assert Upper("DELETE") == "DELETE";
  }

  lemma EarlyEndPlaceholders()
    ensures Placeholders(EarlyEnd()) == Some(["Q"]) && BindNames([Bind("q", 1)]) == Some(["Q"])
  {
    EarlyEndEvents();
    EarlyEndIsDelete();
    hide Events, EarlyEnd, IsDml;
    assert Upper("q") == "Q";
    assert Canonical("q") == Some("Q");
    var events := [Name("q"), Semicolon(27)];
    assert events[1..] == [Semicolon(27)] && events[1..][1..] == [];
    assert CanonicalNames(events[1..]) == Some([]);
    assert ["Q"][..0] == [] && EachOnce(["Q"]) == ["Q"];
    assert [Bind("q", 1)][..0] == [] && BindNames([]) == Some([]);
  }

  lemma EarlyEndFits(operation: Operation)
    requires operation == Operation(EarlyEnd(), 1)
    ensures EachScans([operation]) && OperationFits(operation, ["Q"])
  {
    EarlyEndEvents();
    EarlyEndIsDelete();
    EarlyEndPlaceholders();
    EarlyEndSizes(operation);
    hide EarlyEnd, Events, IsDml, Placeholders, SqlBytes;
  }

  lemma EarlyEndSizes(operation: Operation)
    requires operation == Operation(EarlyEnd(), 1)
    ensures SqlBytes([operation]) <= MAX_COMPOSITE_SQL && Payload([Bind("q", 1)]) <= MAX_PAYLOAD
  {
    assert |EarlyEnd()| <= MAX_COMPOSITE_SQL;
    hide EarlyEnd;
    assert [operation][..0] == [] && SqlBytes([operation]) == |EarlyEnd()|;
    assert [Bind("q", 1)][..0] == [] && Payload([Bind("q", 1)]) == 1;
  }

  lemma EarlyEndAccepted(operation: Operation)
    requires operation == Operation(EarlyEnd(), 1)
    ensures Accepted([operation], [Bind("q", 1)]) && OperationFits(operation, ["Q"])
  {
    hide EarlyEnd, Events, IsDml, Placeholders, BindNames, SqlBytes, Payload, Block, BindsMatch, OperationFits, EachScans;
    EarlyEndPlaceholders();
    EarlyEndFits(operation);
    EarlyEndSizes(operation);
    var operations, arguments := [operation], [Bind("q", 1)];
    RefusedOnlyForUnusedBinds(operations, arguments);
    assert operations[0] == operation;
  }

  /** The builder accepts that statement, and in the block of it the placeholder scanner sees one semicolon more than
      was written. */
  lemma AcceptedStatementEndsEarly()
    ensures var operations := [Operation(EarlyEnd(), 1)];
      && Accepted(operations, [Bind("q", 1)])
      && !NonePassedOver(EarlyEnd(), 0, 0)
      && Events(Block(operations), 0, true).Some?
      && Semicolons(Events(Block(operations), 0, true).value) != WrittenInBlock(operations)
  {
    hide EarlyEnd, Events, Accepted, OperationFits, Block, Semicolons, WrittenInBlock, NonePassedOver;
    var operation := Operation(EarlyEnd(), 1);
    EarlyEndAccepted(operation);
    EarlyEndEvents();
    PassedBoth(operation, ["Q"]);
    NotWhole(operation);
    AcceptedBlockEnds([operation], [Bind("q", 1)]);
    assert [operation][0] == operation;
  }

  lemma NotWhole(operation: Operation)
    requires Events(operation.sql, 0, true) == Some([Name("q"), Semicolon(27)])
    ensures !Whole(operation)
  {
    var events := [Name("q"), Semicolon(27)];
    assert events[1..][0] == Semicolon(27);
  }
}
