/**
 Predicates, their three-valued meaning, and the text they are sent as: a token stream that Oracle reads
 with AND binding tighter than OR.
 */
module SqlText {
  import opened Protocol

  /** Oracle accepts no longer IN list. */
  const MAX_IN_LIST_VALUES: nat := 1000

  /** The truth values of SQL. */
  datatype Truth = True | False | Unknown

  function AndOf(a: Truth, b: Truth): Truth {
    if a == False || b == False then False else if a == Unknown || b == Unknown then Unknown else True
  }

  function OrOf(a: Truth, b: Truth): Truth {
    if a == True || b == True then True else if a == Unknown || b == Unknown then Unknown else False
  }

  function AllOf(values: seq<Truth>): (t: Truth)
    ensures t == True <==> forall i :: 0 <= i < |values| ==> values[i] == True
  {
    if values == [] then True else AndOf(values[0], AllOf(values[1..]))
  }

  function AnyOf(values: seq<Truth>): (t: Truth)
    ensures t == True <==> exists i :: 0 <= i < |values| && values[i] == True
  {
    if values == [] then False
    else
      var rest := AnyOf(values[1..]);
      assert values == [values[0]] + values[1..];
      OrOf(values[0], rest)
  }

  /** A predicate over rows of type `R`: tests, and conjunctions and disjunctions of predicates. */
  datatype Sql<A> = Test(atom: A) | All(parts: seq<Sql<A>>) | Any(parts: seq<Sql<A>>)

  function Meaning<A>(sql: Sql<A>, test: A -> Truth): Truth
    decreases sql
  {
    match sql
    case Test(atom) => test(atom)
    case All(parts) => AllOf(Meanings(parts, test))
    case Any(parts) => AnyOf(Meanings(parts, test))
  }

  function Meanings<A>(parts: seq<Sql<A>>, test: A -> Truth): (values: seq<Truth>)
    ensures |values| == |parts|
    ensures forall i :: 0 <= i < |parts| ==> values[i] == Meaning(parts[i], test)
    decreases parts
  {
    if parts == [] then [] else [Meaning(parts[0], test)] + Meanings(parts[1..], test)
  }

  // ----- the text

  datatype Token<A> = Atom(atom: A) | AndWord | OrWord | LeftParen | RightParen

  /** What is sent for a predicate: a test as it is, anything else in parentheses. */
  function Printed<A>(sql: Sql<A>): (tokens: seq<Token<A>>)
    ensures tokens != []
    decreases sql, 1
  {
    match sql
    case Test(atom) => [Atom(atom)]
    case All(parts) => [LeftParen] + Joined(parts, AndWord) + [RightParen]
    case Any(parts) => [LeftParen] + Joined(parts, OrWord) + [RightParen]
  }

  function Joined<A>(parts: seq<Sql<A>>, separator: Token<A>): seq<Token<A>>
    decreases parts, 0
  {
    if parts == [] then []
    else if |parts| == 1 then Printed(parts[0])
    else Printed(parts[0]) + [separator] + Joined(parts[1..], separator)
  }

  // ----- how Oracle reads it

  datatype Reading<A> = Reading(truth: Truth, rest: seq<Token<A>>)

  /** expression = term { OR term } */
  function ReadExpression<A(==)>(tokens: seq<Token<A>>, test: A -> Truth): (r: Option<Reading<A>>)
    ensures r.Some? ==> |r.value.rest| < |tokens|
    decreases |tokens|, 2
  {
    var first := ReadTerm(tokens, test);
    if first.None? then None
    else if first.value.rest != [] && first.value.rest[0].OrWord? then
      var more := ReadExpression(first.value.rest[1..], test);
      if more.None? then None else Some(Reading(OrOf(first.value.truth, more.value.truth), more.value.rest))
    else first
  }

  /** term = factor { AND factor } */
  function ReadTerm<A(==)>(tokens: seq<Token<A>>, test: A -> Truth): (r: Option<Reading<A>>)
    ensures r.Some? ==> |r.value.rest| < |tokens|
    decreases |tokens|, 1
  {
    var first := ReadFactor(tokens, test);
    if first.None? then None
    else if first.value.rest != [] && first.value.rest[0].AndWord? then
      var more := ReadTerm(first.value.rest[1..], test);
      if more.None? then None else Some(Reading(AndOf(first.value.truth, more.value.truth), more.value.rest))
    else first
  }

  /** factor = test | "(" expression ")" */
  function ReadFactor<A(==)>(tokens: seq<Token<A>>, test: A -> Truth): (r: Option<Reading<A>>)
    ensures r.Some? ==> |r.value.rest| < |tokens|
    decreases |tokens|, 0
  {
    if tokens == [] then None
    else if tokens[0].Atom? then Some(Reading(test(tokens[0].atom), tokens[1..]))
    else if tokens[0].LeftParen? then
      var inner := ReadExpression(tokens[1..], test);
      if inner.Some? && inner.value.rest != [] && inner.value.rest[0].RightParen? then
        Some(Reading(inner.value.truth, inner.value.rest[1..]))
      else None
    else None
  }

  // ----- reading what was printed

  /** No list of parts is empty. */
  ghost predicate Printable<A>(sql: Sql<A>)
    decreases sql
  {
    match sql
    case Test(_) => true
    case All(parts) => parts != [] && AllPrintable(parts)
    case Any(parts) => parts != [] && AllPrintable(parts)
  }

  ghost predicate AllPrintable<A>(parts: seq<Sql<A>>)
    decreases parts
  {
    forall i :: 0 <= i < |parts| ==> Printable(parts[i])
  }

  /** What may follow a printed list without becoming part of it. */
  ghost predicate Ends<A(!new)>(rest: seq<Token<A>>) {
    rest == [] || rest[0].RightParen?
  }

  /** A printed predicate in front of anything reads back with its meaning if and only if no list in it is empty. */
  lemma {:induction false} FactorReads<A(!new)>(sql: Sql<A>, test: A -> Truth, rest: seq<Token<A>>)
    ensures ReadFactor(Printed(sql) + rest, test)
         == if Printable(sql) then Some(Reading(Meaning(sql, test), rest)) else None
    decreases sql, 1
  {
    var tokens := Printed(sql) + rest;
    match sql
    case Test(atom) =>
      assert tokens[1..] == rest;
    case All(parts) =>
      var inner := Joined(parts, AndWord) + ([RightParen] + rest);
      assert tokens == [LeftParen] + inner;
      assert tokens[1..] == inner;
      if parts != [] {
        AndListReads(parts, test, [RightParen] + rest);
      } else {
        NothingToRead(inner, test);
      }
    case Any(parts) =>
      var inner := Joined(parts, OrWord) + ([RightParen] + rest);
      assert tokens == [LeftParen] + inner;
      assert tokens[1..] == inner;
      if parts != [] {
        OrListReads(parts, test, [RightParen] + rest);
      } else {
        NothingToRead(inner, test);
      }
  }

  lemma NothingToRead<A(!new)>(tokens: seq<Token<A>>, test: A -> Truth)
    requires tokens != [] && tokens[0].RightParen?
    ensures ReadExpression(tokens, test) == None
  {
    assert ReadFactor(tokens, test) == None;
  }

  /** A list joined with AND reads as the conjunction of its parts, or not at all. */
  lemma {:induction false} AndListReads<A(!new)>(parts: seq<Sql<A>>, test: A -> Truth, rest: seq<Token<A>>)
    requires parts != [] && Ends(rest)
    ensures ReadTerm(Joined(parts, AndWord) + rest, test)
         == if AllPrintable(parts) then Some(Reading(AllOf(Meanings(parts, test)), rest)) else None
    ensures ReadExpression(Joined(parts, AndWord) + rest, test) == ReadTerm(Joined(parts, AndWord) + rest, test)
    decreases parts, 0
  {
    hide ReadFactor, Printed, Meaning, Printable;
    FirstPrintable(parts);
    if |parts| == 1 {
      FactorReads(parts[0], test, rest);
      SingleAll(Meaning(parts[0], test));
      assert Meanings(parts, test) == [Meaning(parts[0], test)];
    } else {
      var more := [AndWord] + (Joined(parts[1..], AndWord) + rest);
      assert Joined(parts, AndWord) + rest == Printed(parts[0]) + more;
      FactorReads(parts[0], test, more);
      assert more[1..] == Joined(parts[1..], AndWord) + rest;
      AndListReads(parts[1..], test, rest);
      assert Meanings(parts, test)[1..] == Meanings(parts[1..], test);
    }
  }

  lemma FirstPrintable<A(!new)>(parts: seq<Sql<A>>)
    requires parts != []
    ensures AllPrintable(parts) <==> Printable(parts[0]) && AllPrintable(parts[1..])
  {
    hide Printable;
    assert forall i :: 1 <= i < |parts| ==> parts[i] == parts[1..][i - 1];
  }

  lemma SingleAll(t: Truth)
    ensures AllOf([t]) == t && AnyOf([t]) == t
  {
    assert [t][1..] == [];
  }

  /** A list joined with OR reads as the disjunction of its parts, or not at all. */
  lemma {:induction false} OrListReads<A(!new)>(parts: seq<Sql<A>>, test: A -> Truth, rest: seq<Token<A>>)
    requires parts != [] && Ends(rest)
    ensures ReadExpression(Joined(parts, OrWord) + rest, test)
         == if AllPrintable(parts) then Some(Reading(AnyOf(Meanings(parts, test)), rest)) else None
    decreases parts, 0
  {
    hide ReadFactor, Printed, Meaning, Printable;
    FirstPrintable(parts);
    if |parts| == 1 {
      FactorReads(parts[0], test, rest);
      SingleAll(Meaning(parts[0], test));
      assert Meanings(parts, test) == [Meaning(parts[0], test)];
    } else {
      var more := [OrWord] + (Joined(parts[1..], OrWord) + rest);
      assert Joined(parts, OrWord) + rest == Printed(parts[0]) + more;
      FactorReads(parts[0], test, more);
      assert more[1..] == Joined(parts[1..], OrWord) + rest;
      OrListReads(parts[1..], test, rest);
      assert Meanings(parts, test)[1..] == Meanings(parts[1..], test);
    }
  }

  /** The text of a WHERE clause, predicates joined with AND and no parentheses around the whole, is read as
      the conjunction of those predicates, each as it was meant, if and only if no list in any of them is empty;
      else it is not read at all. */
  lemma WhereReads<A(!new)>(parts: seq<Sql<A>>, test: A -> Truth)
    requires parts != []
    ensures ReadExpression(Joined(parts, AndWord), test)
         == if AllPrintable(parts) then Some(Reading(AllOf(Meanings(parts, test)), [])) else None
  {
    assert Joined(parts, AndWord) + [] == Joined(parts, AndWord);
    AndListReads(parts, test, []);
  }

  /** Without its parentheses a disjunction would be read otherwise: a, or b and c. */
  lemma ParenthesesNeeded()
    ensures var test := (atom: int) => if atom == 0 then True else False;
      var sent := [Atom(0), OrWord, Atom(1), AndWord, Atom(2)];
      && ReadExpression(sent, test) == Some(Reading(True, []))
      && Meaning(All([Any([Test(0), Test(1)]), Test(2)]), test) == False
  {
    var test := (atom: int) => if atom == 0 then True else False;
    var sent := [Atom(0), OrWord, Atom(1), AndWord, Atom(2)];
    assert sent[1..][1..] == [Atom(1), AndWord, Atom(2)];
    assert [Atom(1), AndWord, Atom(2)][1..] == [AndWord, Atom(2)];
    assert [AndWord, Atom(2)][1..] == [Atom(2)];
    assert ReadTerm([Atom(2)], test) == Some(Reading(False, []));
    assert ReadTerm([Atom(1), AndWord, Atom(2)], test) == Some(Reading(False, []));
    var parts := [Any([Test(0), Test(1)]), Test(2)];
    assert Meanings(parts, test)[1] == False;
  }

  // ----- quoted text

  /** A text constant: quotes around it, and each quote in it doubled. */
  function Quoted(text: string): string {
    "'" + Doubled(text) + "'"
  }

  function Doubled(text: string): string {
    if text == "" then ""
    else (if text[0] == '\'' then "''" else [text[0]]) + Doubled(text[1..])
  }

  /** The loop that builds the constant a character at a time. */
  method QuoteText(text: string) returns (literal: string)
    ensures literal == Quoted(text)
  {
    literal := "'";
    for i := 0 to |text|
      invariant "'" + Doubled(text) == literal + Doubled(text[i..])
    {
      assert text[i..][1..] == text[i + 1..];
      if text[i] == '\'' {
        literal := literal + "'";
      }
      literal := literal + [text[i]];
    }
    assert text[|text|..] == "";
    literal := literal + "'";
  }

  /** How Oracle reads one, from after the opening quote: the text, and what follows the closing quote. */
  function ReadQuoted(source: string): Option<(string, string)> {
    if source == "" then None
    else if source[0] != '\'' then
      var more := ReadQuoted(source[1..]);
      if more.None? then None else Some(([source[0]] + more.value.0, more.value.1))
    else if |source| > 1 && source[1] == '\'' then
      var more := ReadQuoted(source[2..]);
      if more.None? then None else Some(("'" + more.value.0, more.value.1))
    else Some(("", source[1..]))
  }

  /** Whatever the text holds, it is read back whole and nothing after it is swallowed. */
  lemma {:induction false} QuotedReads(text: string, rest: string)
    requires rest == "" || rest[0] != '\''
    ensures ReadQuoted(Quoted(text)[1..] + rest) == Some((text, rest))
  {
    var source := Doubled(text) + ("'" + rest);
    assert Quoted(text)[1..] + rest == source;
    if text == "" {
      assert source == "'" + rest;
    } else {
      QuotedReads(text[1..], rest);
      var more := Doubled(text[1..]) + ("'" + rest);
      assert Quoted(text[1..])[1..] + rest == more;
      hide Quoted, Doubled;
      assert Doubled(text) == (if text[0] == '\'' then "''" else [text[0]]) + Doubled(text[1..]) by {
        DoubledStep(text);
      }
      assert source == (if text[0] == '\'' then "''" else [text[0]]) + more;
      assert text == [text[0]] + text[1..];
      OneCharacter(text[0], more);
    }
  }

  lemma DoubledStep(text: string)
    requires text != ""
    ensures Doubled(text) == (if text[0] == '\'' then "''" else [text[0]]) + Doubled(text[1..])
  {
  }

  lemma OneCharacter(c: char, more: string)
    requires ReadQuoted(more).Some?
    ensures ReadQuoted((if c == '\'' then "''" else [c]) + more)
         == Some(([c] + ReadQuoted(more).value.0, ReadQuoted(more).value.1))
  {
    if c == '\'' {
      assert ("''" + more)[2..] == more;
    } else {
      assert ([c] + more)[1..] == more;
    }
  }
}
