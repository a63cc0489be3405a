/**
 Two scanners read the same SQL text, one looking for bind names (sql_binds.cpp) and one for statement terminators
 (sql_statement.cpp). They take the same pieces of it for comments and quoted text exactly when no bind name opens a
 q-quote for the second, and see the same semicolons exactly when neither passes over one the other stops at.
 */
module SqlAgreement {
  import opened Protocol
  import opened Characters
  import opened SqlLexer
  import opened SqlBinds

  // ----- the pieces that are skipped

  /** A comment or quoted text, by its place; open when it does not end. */
  datatype Piece = Closed(from: nat, to: nat) | Open(from: nat)

  /** The comments and quoted texts a scanner skips from `i` on, up to one that does not end. */
  function Pieces(sql: string, i: nat, binds: bool): seq<Piece>
    decreases |sql| - i
  {
    if i >= |sql| then []
    else
      var skip := SkipAt(sql, i);
      if skip.Unterminated? then [Open(i)]
      else if skip.To? then [Closed(i, skip.next)] + Pieces(sql, skip.next, binds)
      else if binds && NameAt(sql, i) then Pieces(sql, NameEnd(sql, i + 1), binds)
      else Pieces(sql, i + 1, binds)
  }

  /** From `i` on, no bind name has a last letter that a scanner which does not know names would take for the start of
      a q-quote. */
  predicate NoNameOpensQuote(sql: string, i: nat)
    decreases |sql| - i
  {
    if i >= |sql| then true
    else
      var skip := SkipAt(sql, i);
      if skip.Unterminated? then true
      else if skip.To? then NoNameOpensQuote(sql, skip.next)
      else if NameAt(sql, i) then
        NameSpans(sql, i + 1);
        var end := NameEnd(sql, i + 1);
        !QQuote(sql, end - 1) && NoNameOpensQuote(sql, end)
      else NoNameOpensQuote(sql, i + 1)
  }

  /** The terminator scanner passes over the letters of a name unless the last opens a q-quote. */
  lemma {:induction false} NameIsSkipped(sql: string, i: nat, end: nat)
    requires 0 < i <= end <= |sql| && forall k :: i <= k < end ==> BindPart(sql[k])
    requires i < end ==> !QQuote(sql, end - 1)
    ensures Events(sql, i, false) == Events(sql, end, false) && Pieces(sql, i, false) == Pieces(sql, end, false)
    decreases end - i
  {
    if i < end {
      assert i + 1 < end ==> BindPart(sql[i + 1]);
      assert SkipAt(sql, i) == Nothing;
      NameIsSkipped(sql, i + 1, end);
    }
  }

  lemma {:induction false} NamePartsOnly(sql: string, i: nat)
    requires i <= |sql|
    ensures forall k :: i <= k < NameEnd(sql, i) ==> BindPart(sql[k])
    decreases |sql| - i
  {
    if i < |sql| && BindPart(sql[i]) {
      NamePartsOnly(sql, i + 1);
    }
  }

  lemma PastTheName(sql: string, i: nat)
    requires i < |sql| && SkipAt(sql, i) == Nothing && NameAt(sql, i)
    ensures Pieces(sql, i, true) == Pieces(sql, NameEnd(sql, i + 1), true)
    ensures Pieces(sql, i, false) == Pieces(sql, i + 1, false)
  {
    hide SkipAt, NameEnd;
  }

  lemma PieceHere(sql: string, i: nat, binds: bool)
    requires i < |sql| && !SkipAt(sql, i).Nothing?
    ensures Pieces(sql, i, binds) != [] && Pieces(sql, i, binds)[0].from == i
  {
    hide SkipAt;
  }

  /** Where a name does open one, the one scanner goes on with a quoted text behind the name, and the other with a
      q-quote from its last letter on. */
  lemma NameOpensQuote(sql: string, i: nat)
    requires i < |sql| && SkipAt(sql, i) == Nothing && NameAt(sql, i) && QQuote(sql, NameEnd(sql, i + 1) - 1)
    ensures Pieces(sql, i, true) != [] && Pieces(sql, i, true)[0].from == NameEnd(sql, i + 1)
    ensures Pieces(sql, i, false) != [] && Pieces(sql, i, false)[0].from == NameEnd(sql, i + 1) - 1
  {
    hide SkipAt, Pieces, NameEnd, QQuote, BindStart;
    var end := NameEnd(sql, i + 1);
    PastTheName(sql, i);
    UpToItsEnd(sql, i + 1);
    QuotesAreSkipped(sql, end - 1);
    PieceHere(sql, end, true);
    PieceHere(sql, end - 1, false);
  }

  lemma UpToItsEnd(sql: string, i: nat)
    requires 0 < i < |sql| && BindStart(sql[i])
    ensures i < NameEnd(sql, i) <= |sql|
    ensures QQuote(sql, NameEnd(sql, i) - 1) ==> Pieces(sql, i, false) == Pieces(sql, NameEnd(sql, i) - 1, false)
  {
    hide Pieces, Events;
    var end := NameEnd(sql, i);
    NamePartsOnly(sql, i);
    if QQuote(sql, end - 1) {
      assert i < end - 1 ==> BindPart(sql[end - 1]);
      NameIsSkipped(sql, i, end - 1);
    }
  }

  lemma QuotesAreSkipped(sql: string, i: nat)
    requires i < |sql| && QQuote(sql, i)
    ensures i + 1 < |sql| && !SkipAt(sql, i).Nothing? && !SkipAt(sql, i + 1).Nothing?
  {
    hide QuoteEnd, FindPair;
  }

  /** The two scanners skip the same pieces of a text if and only if no bind name in it opens a q-quote. */
  lemma {:induction false} ReadAlike(sql: string, i: nat)
    ensures Pieces(sql, i, true) == Pieces(sql, i, false) <==> NoNameOpensQuote(sql, i)
    decreases |sql| - i
  {
    hide SkipAt, NameEnd, QQuote;
    if i < |sql| {
      var skip := SkipAt(sql, i);
      if skip.To? {
        ReadAlike(sql, skip.next);
        var first := [Closed(i, skip.next)];
        var a, b := Pieces(sql, skip.next, true), Pieces(sql, skip.next, false);
        assert (first + a)[1..] == a && (first + b)[1..] == b;
      } else if skip.Nothing? {
        if NameAt(sql, i) {
          var end := NameEnd(sql, i + 1);
          NameSpans(sql, i + 1);
          NamePartsOnly(sql, i + 1);
          if QQuote(sql, end - 1) {
            NameOpensQuote(sql, i);
          } else {
            NameIsSkipped(sql, i + 1, end);
            ReadAlike(sql, end);
          }
        } else {
          ReadAlike(sql, i + 1);
        }
      }
    }
  }

  // ----- the semicolons that are seen

  function Semicolons(events: seq<Event>): seq<Event> {
    if events == [] then []
    else if events[0].Semicolon? then [events[0]] + Semicolons(events[1..])
    else Semicolons(events[1..])
  }

  lemma DropsHead(event: Event, rest: seq<Event>)
    ensures Semicolons([event] + rest) == (if event.Semicolon? then [event] else []) + Semicolons(rest)
  {
    assert ([event] + rest)[1..] == rest;
  }

  /** The placeholder scanner stands at `a` and the terminator scanner at `b`. The one behind goes on alone until both
      stand at the same place again, and on that way sees no semicolon. */
  predicate NonePassedOver(sql: string, a: nat, b: nat)
    requires a <= |sql| && b <= |sql|
    decreases 2 * |sql| - a - b
  {
    var at := Min(a, b);
    if at == |sql| || SkipAt(sql, at).Unterminated? then true
    else
      var skip := SkipAt(sql, at);
      if a == b then
        if skip.To? then NonePassedOver(sql, skip.next, skip.next)
        else if NameAt(sql, a) then NonePassedOver(sql, NameEnd(sql, a + 1), a + 1)
        else NonePassedOver(sql, a + 1, a + 1)
      else if skip.Nothing? && sql[at] == ';' then false
      else if a < b then
        NonePassedOver(sql, if skip.To? then skip.next else if NameAt(sql, a) then NameEnd(sql, a + 1) else a + 1, b)
      else NonePassedOver(sql, a, if skip.To? then skip.next else b + 1)
  }

  /** What is seen from a place on lies there or behind it. */
  lemma {:induction false} FirstIsAhead(sql: string, i: nat, binds: bool)
    requires Events(sql, i, binds).Some?
    ensures var seen := Semicolons(Events(sql, i, binds).value); seen != [] ==> seen[0].Semicolon? && seen[0].at >= i
    decreases |sql| - i
  {
    hide SkipAt, NameEnd;
    if i < |sql| {
      var skip := SkipAt(sql, i);
      if skip.To? {
        FirstIsAhead(sql, skip.next, binds);
      } else if binds && NameAt(sql, i) {
        FirstIsAhead(sql, NameEnd(sql, i + 1), binds);
        DropsHead(Name(sql[i + 1..NameEnd(sql, i + 1)]), Events(sql, NameEnd(sql, i + 1), binds).value);
      } else {
        FirstIsAhead(sql, i + 1, binds);
        DropsHead(Semicolon(i), Events(sql, i + 1, binds).value);
      }
    }
  }

  /** The semicolons a scanner sees from `i` on, by those it sees from the next place on. */
  lemma NextSeen(sql: string, i: nat, binds: bool)
    requires i < |sql| && Events(sql, i, binds).Some?
    ensures !SkipAt(sql, i).Unterminated?
    ensures var skip := SkipAt(sql, i);
      var next := if skip.To? then skip.next else if binds && NameAt(sql, i) then NameEnd(sql, i + 1) else i + 1;
      && i < next <= |sql| && Events(sql, next, binds).Some?
      && Semicolons(Events(sql, i, binds).value)
         == (if skip.Nothing? && sql[i] == ';' then [Semicolon(i)] else []) + Semicolons(Events(sql, next, binds).value)
  {
    hide NameEnd;
    var skip := SkipAt(sql, i);
    hide SkipAt;
    if skip.Nothing? {
      if binds && NameAt(sql, i) {
        DropsHead(Name(sql[i + 1..NameEnd(sql, i + 1)]), Events(sql, NameEnd(sql, i + 1), binds).value);
      } else {
        DropsHead(Semicolon(i), Events(sql, i + 1, binds).value);
      }
    }
  }

  /** Of a text both scanners accept, they see the same semicolons if and only if neither passes over one. */
  lemma {:induction false} ScannersAgreeFrom(sql: string, a: nat, b: nat)
    requires a <= |sql| && b <= |sql| && Events(sql, a, true).Some? && Events(sql, b, false).Some?
    ensures Semicolons(Events(sql, a, true).value) == Semicolons(Events(sql, b, false).value) <==> NonePassedOver(sql, a, b)
    decreases 2 * |sql| - a - b
  {
    hide SkipAt, NameEnd, Events, Semicolons;
    if Min(a, b) == |sql| {
      NothingSeen(sql);
    } else {
      if a <= b {
        NextSeen(sql, a, true);
      }
      if b <= a {
        NextSeen(sql, b, false);
      }
      FirstIsAhead(sql, a, true);
      FirstIsAhead(sql, b, false);
      var at := Min(a, b);
      var skip := SkipAt(sql, at);
      var nextA := if skip.To? then skip.next else if NameAt(sql, at) then NameEnd(sql, at + 1) else at + 1;
      var nextB := if skip.To? then skip.next else at + 1;
      if a == b {
        ScannersAgreeFrom(sql, nextA, nextB);
        var first := if skip.Nothing? && sql[at] == ';' then [Semicolon(at)] else [];
        SameFront(first, Semicolons(Events(sql, nextA, true).value), Semicolons(Events(sql, nextB, false).value));
      } else if !(skip.Nothing? && sql[at] == ';') {
        if a < b {
          ScannersAgreeFrom(sql, nextA, b);
        } else {
          ScannersAgreeFrom(sql, a, nextB);
        }
      }
    }
  }

  lemma SameFront(front: seq<Event>, a: seq<Event>, b: seq<Event>)
    ensures front + a == front + b <==> a == b
  {
    assert (front + a)[|front|..] == a && (front + b)[|front|..] == b;
  }

  lemma NothingSeen(sql: string)
    ensures Events(sql, |sql|, true) == Some([]) && Events(sql, |sql|, false) == Some([])
  {
  }

  /** The terminator scanner sees nothing but semicolons. */
  lemma {:induction false} OnlySemicolons(sql: string, i: nat)
    requires Events(sql, i, false).Some?
    ensures Semicolons(Events(sql, i, false).value) == Events(sql, i, false).value
    decreases |sql| - i
  {
    hide SkipAt;
    if i < |sql| {
      var skip := SkipAt(sql, i);
      if skip.To? {
        OnlySemicolons(sql, skip.next);
      } else {
        OnlySemicolons(sql, i + 1);
        DropsHead(Semicolon(i), Events(sql, i + 1, false).value);
      }
    }
  }

  /** Both scanners see the same semicolons in a text they accept if and only if, while they stand apart, the one
      behind never comes to one. */
  lemma ScannersAgree(sql: string)
    requires Events(sql, 0, true).Some? && Events(sql, 0, false).Some?
    ensures Semicolons(Events(sql, 0, true).value) == Events(sql, 0, false).value <==> NonePassedOver(sql, 0, 0)
  {
    ScannersAgreeFrom(sql, 0, 0);
    OnlySemicolons(sql, 0);
  }

  /** Where no name opens a q-quote they also accept the same texts. */
  lemma {:induction false} AcceptAlike(sql: string, i: nat)
    requires NoNameOpensQuote(sql, i)
    ensures Events(sql, i, true).Some? <==> Events(sql, i, false).Some?
    ensures Events(sql, i, true).Some? ==> Semicolons(Events(sql, i, true).value) == Events(sql, i, false).value
    decreases |sql| - i
  {
    hide SkipAt, NameEnd, QQuote;
    if i < |sql| {
      var skip := SkipAt(sql, i);
      if skip.To? {
        AcceptAlike(sql, skip.next);
      } else if skip.Nothing? {
        if NameAt(sql, i) {
          var end := NameEnd(sql, i + 1);
          NameSpans(sql, i + 1);
          NamePartsOnly(sql, i + 1);
          NameIsSkipped(sql, i + 1, end);
          AcceptAlike(sql, end);
          if Events(sql, end, true).Some? {
            DropsHead(Name(sql[i + 1..end]), Events(sql, end, true).value);
          }
        } else {
          AcceptAlike(sql, i + 1);
          if Events(sql, i + 1, true).Some? {
            DropsHead(Semicolon(i), Events(sql, i + 1, true).value);
          }
        }
      }
    }
  }
}
