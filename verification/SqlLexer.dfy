/**
 The two scanners over SQL text: the one that finds bind placeholders (sql_binds.cpp) and the one that refuses
 statement terminators (sql_statement.cpp). Both skip comments, quoted text and q-quoted text; what they see
 outside those is a sequence of events, and the events of a text and a line after it are the events of both.
 */
module SqlLexer {
  import opened Protocol
  import opened Characters

  const MAX_SQL_BYTES := 0x10_0000

  predicate BindStart(c: char) {
    Letter(c) || c == '_' || Digit(c)
  }

  predicate BindPart(c: char) {
    BindStart(c) || c == '$' || c == '#'
  }

  // ----- what is skipped

  /** The end of a line comment's text. */
  function LineEnd(sql: string, i: nat): (end: nat)
    requires i <= |sql|
    ensures i <= end <= |sql|
    decreases |sql| - i
  {
    if i == |sql| || sql[i] == '\n' || sql[i] == '\r' then i else LineEnd(sql, i + 1)
  }

  /** The first place at or after `i` where one character is followed by another. */
  function FindPair(sql: string, first: char, second: char, i: nat): (at: Option<nat>)
    ensures at.Some? ==> i <= at.value && at.value + 2 <= |sql|
    decreases |sql| - i
  {
    if i + 1 >= |sql| then None
    else if sql[i] == first && sql[i + 1] == second then Some(i)
    else FindPair(sql, first, second, i + 1)
  }

  /** The end of a quoted text from inside it; a doubled quote does not end it. */
  function QuoteEnd(sql: string, quote: char, i: nat): (end: Option<nat>)
    ensures end.Some? ==> i < end.value <= |sql|
    decreases |sql| - i
  {
    if i >= |sql| then None
    else if sql[i] != quote then QuoteEnd(sql, quote, i + 1)
    else if i + 1 < |sql| && sql[i + 1] == quote then QuoteEnd(sql, quote, i + 2)
    else Some(i + 1)
  }

  function QTerminator(opener: char): char {
    match opener
    case '[' => ']'
    case '(' => ')'
    case '{' => '}'
    case '<' => '>'
    case _ => opener
  }

  datatype Skip = Nothing | To(next: nat) | Unterminated

  function Pair(sql: string, i: nat, first: char, second: char): bool
    requires i < |sql|
  {
    sql[i] == first && i + 1 < |sql| && sql[i + 1] == second
  }

  predicate QQuote(sql: string, i: nat)
    requires i < |sql|
  {
    sql[i] in {'q', 'Q'} && i + 2 < |sql| && sql[i + 1] == '\''
  }

  /** A comment or quoted text that starts at `i`. */
  function SkipAt(sql: string, i: nat): (s: Skip)
    requires i < |sql|
    ensures s.To? ==> i < s.next <= |sql|
  {
    if Pair(sql, i, '-', '-') then To(LineEnd(sql, i + 2))
    else if Pair(sql, i, '/', '*') then
      var end := FindPair(sql, '*', '/', i + 2);
      if end.None? then Unterminated else To(end.value + 2)
    else if sql[i] == '\'' || sql[i] == '"' then
      var end := QuoteEnd(sql, sql[i], i + 1);
      if end.None? then Unterminated else To(end.value)
    else if QQuote(sql, i) then
      var end := FindPair(sql, QTerminator(sql[i + 2]), '\'', i + 3);
      if end.None? then Unterminated else To(end.value + 2)
    else Nothing
  }

  // ----- what is seen

  datatype Event = Name(text: string) | Semicolon(at: nat)

  function NameEnd(sql: string, i: nat): (end: nat)
    requires i <= |sql|
    ensures i <= end <= |sql|
    decreases |sql| - i
  {
    if i < |sql| && BindPart(sql[i]) then NameEnd(sql, i + 1) else i
  }

  predicate NameAt(sql: string, i: nat)
    requires i < |sql|
  {
    sql[i] == ':' && i + 1 < |sql| && sql[i + 1] != ':' && BindStart(sql[i + 1])
  }

  /** What a scanner sees from `i` on; nothing when something is not terminated. Only one of the two scanners
      looks for bind names. */
  function Events(sql: string, i: nat, binds: bool): Option<seq<Event>>
    decreases |sql| - i
  {
    if i >= |sql| then Some([])
    else
      var skip := SkipAt(sql, i);
      if skip.Unterminated? then None
      else if skip.To? then Events(sql, skip.next, binds)
      else if binds && NameAt(sql, i) then Seen(Name(sql[i + 1..NameEnd(sql, i + 1)]), Events(sql, NameEnd(sql, i + 1), binds))
      else if sql[i] == ';' then Seen(Semicolon(i), Events(sql, i + 1, binds))
      else Events(sql, i + 1, binds)
  }

  function Seen(event: Event, rest: Option<seq<Event>>): Option<seq<Event>> {
    Behind([event], rest)
  }

  /** The same events further on in a text. */
  function Shifted(events: seq<Event>, distance: nat): (r: seq<Event>)
    ensures |r| == |events|
  {
    if events == [] then []
    else
      var first := match events[0] case Name(text) => Name(text) case Semicolon(at) => Semicolon(at + distance);
      [first] + Shifted(events[1..], distance)
  }

  function ShiftedAll(events: Option<seq<Event>>, distance: nat): Option<seq<Event>> {
    if events.None? then None else Some(Shifted(events.value, distance))
  }

  // ----- a text behind another

  lemma {:induction false} LineEndBehind(p: string, s: string, i: nat)
    requires i <= |s|
    ensures LineEnd(p + s, |p| + i) == |p| + LineEnd(s, i)
    decreases |s| - i
  {
    if i < |s| {
      LineEndBehind(p, s, i + 1);
    }
  }

  lemma {:induction false} FindPairBehind(p: string, s: string, first: char, second: char, i: nat)
    ensures FindPair(p + s, first, second, |p| + i)
         == (match FindPair(s, first, second, i) case None => None case Some(at) => Some(|p| + at))
    decreases |s| - i
  {
    if i + 1 < |s| {
      FindPairBehind(p, s, first, second, i + 1);
    }
  }

  lemma {:induction false} QuoteEndBehind(p: string, s: string, quote: char, i: nat)
    ensures QuoteEnd(p + s, quote, |p| + i)
         == (match QuoteEnd(s, quote, i) case None => None case Some(end) => Some(|p| + end))
    decreases |s| - i
  {
    if i < |s| {
      if s[i] != quote {
        QuoteEndBehind(p, s, quote, i + 1);
      } else if i + 1 < |s| && s[i + 1] == quote {
        QuoteEndBehind(p, s, quote, i + 2);
      }
    }
  }

  lemma {:induction false} NameEndBehind(p: string, s: string, i: nat)
    requires i <= |s|
    ensures NameEnd(p + s, |p| + i) == |p| + NameEnd(s, i)
    decreases |s| - i
  {
    if i < |s| {
      NameEndBehind(p, s, i + 1);
    }
  }

  lemma SkipBehind(p: string, s: string, i: nat)
    requires i < |s|
    ensures SkipAt(p + s, |p| + i)
         == (match SkipAt(s, i) case Nothing => Nothing case Unterminated => Unterminated case To(n) => To(|p| + n))
  {
    hide LineEnd, FindPair, QuoteEnd;
    if Pair(s, i, '-', '-') {
      LineEndBehind(p, s, i + 2);
    }
    FindPairBehind(p, s, '*', '/', i + 2);
    QuoteEndBehind(p, s, s[i], i + 1);
    if QQuote(s, i) {
      FindPairBehind(p, s, QTerminator(s[i + 2]), '\'', i + 3);
    }
  }

  lemma {:induction false} EventsBehind(p: string, s: string, i: nat, binds: bool)
    ensures Events(p + s, |p| + i, binds) == ShiftedAll(Events(s, i, binds), |p|)
    decreases |s| - i
  {
    hide SkipAt, NameEnd;
    if i < |s| {
      SkipBehind(p, s, i);
      var skip := SkipAt(s, i);
      if skip.To? {
        EventsBehind(p, s, skip.next, binds);
      } else if skip.Nothing? {
        if binds && NameAt(s, i) {
          NameEndBehind(p, s, i + 1);
          NameSpans(s, i + 1);
          EventsBehind(p, s, NameEnd(s, i + 1), binds);
          assert (p + s)[|p| + i + 1..|p| + NameEnd(s, i + 1)] == s[i + 1..NameEnd(s, i + 1)];
        } else {
          EventsBehind(p, s, i + 1, binds);
        }
      }
    }
  }

  lemma NameSpans(s: string, i: nat)
    requires i < |s| && BindStart(s[i])
    ensures i < NameEnd(s, i) <= |s|
  {
  }

  // ----- a line after a text

  lemma {:induction false} LineEndBefore(a: string, b: string, i: nat)
    requires i <= |a|
    ensures LineEnd(a + "\n" + b, i) == LineEnd(a, i)
    decreases |a| - i
  {
    if i < |a| {
      LineEndBefore(a, b, i + 1);
    }
  }

  lemma {:induction false} FindPairBefore(a: string, b: string, first: char, second: char, i: nat)
    requires FindPair(a, first, second, i).Some?
    ensures FindPair(a + "\n" + b, first, second, i) == FindPair(a, first, second, i)
    decreases |a| - i
  {
    if !(a[i] == first && a[i + 1] == second) {
      FindPairBefore(a, b, first, second, i + 1);
    }
  }

  lemma {:induction false} QuoteEndBefore(a: string, b: string, quote: char, i: nat)
    requires QuoteEnd(a, quote, i).Some? && quote != '\n'
    ensures QuoteEnd(a + "\n" + b, quote, i) == QuoteEnd(a, quote, i)
    decreases |a| - i
  {
    if a[i] != quote {
      QuoteEndBefore(a, b, quote, i + 1);
    } else if i + 1 < |a| && a[i + 1] == quote {
      QuoteEndBefore(a, b, quote, i + 2);
    }
  }

  lemma {:induction false} NameEndBefore(a: string, b: string, i: nat)
    requires i <= |a|
    ensures NameEnd(a + "\n" + b, i) == NameEnd(a, i)
    decreases |a| - i
  {
    if i < |a| {
      NameEndBefore(a, b, i + 1);
    }
  }

  /** A q-quote cut off at the end of a text is not seen there, but a line after the text would complete it. */
  predicate CutQQuote(a: string, i: nat)
    requires i < |a|
  {
    a[i] in {'q', 'Q'} && i + 2 == |a| && a[i + 1] == '\''
  }

  lemma SkipBefore(a: string, b: string, i: nat)
    requires i < |a| && !SkipAt(a, i).Unterminated? && !CutQQuote(a, i)
    ensures SkipAt(a + "\n" + b, i) == SkipAt(a, i)
  {
    hide LineEnd, FindPair, QuoteEnd;
    var s := a + "\n" + b;
    assert s[i] == a[i] && (i + 1 < |a| ==> s[i + 1] == a[i + 1]) && (i + 1 == |a| ==> s[i + 1] == '\n');
    if Pair(a, i, '-', '-') {
      LineEndBefore(a, b, i + 2);
    } else if Pair(a, i, '/', '*') {
      FindPairBefore(a, b, '*', '/', i + 2);
    } else if a[i] == '\'' || a[i] == '"' {
      QuoteEndBefore(a, b, a[i], i + 1);
    } else if QQuote(a, i) {
      FindPairBefore(a, b, QTerminator(a[i + 2]), '\'', i + 3);
    }
  }

  /** A text that ends in a cut q-quote is not terminated: its last quote is open. */
  lemma CutQQuoteIsOpen(a: string, i: nat, binds: bool)
    requires i < |a| && CutQQuote(a, i)
    ensures Events(a, i, binds).None?
  {
    assert QuoteEnd(a, '\'', i + 2) == None;
    assert SkipAt(a, i + 1) == Unterminated;
    assert SkipAt(a, i) == Nothing;
    assert Events(a, i + 1, binds).None?;
  }

  /** What a scanner sees in a text and in what follows it on the next line is what it sees in each. */
  lemma {:induction false} EventsJoin(a: string, b: string, i: nat, binds: bool)
    requires i <= |a| && Events(a, i, binds).Some?
    ensures Events(a + "\n" + b, i, binds)
         == Behind(Events(a, i, binds).value, ShiftedAll(Events(b, 0, binds), |a| + 1))
    decreases |a| - i
  {
    hide SkipAt, NameEnd;
    var s := a + "\n" + b;
    if i == |a| {
      NewlineSkipsNothing(s, i);
      EventsBehind(a + "\n", b, 0, binds);
      assert Events(s, i, binds) == Events(s, i + 1, binds);
      var behind := ShiftedAll(Events(b, 0, binds), |a| + 1);
      assert behind.Some? ==> [] + behind.value == behind.value;
    } else {
      if CutQQuote(a, i) {
        CutQQuoteIsOpen(a, i, binds);
      }
      SkipBefore(a, b, i);
      var skip := SkipAt(a, i);
      if skip.To? {
        EventsJoin(a, b, skip.next, binds);
      } else if binds && NameAt(a, i) {
        NameEndBefore(a, b, i + 1);
        NameSpans(a, i + 1);
        EventsJoin(a, b, NameEnd(a, i + 1), binds);
        var name := Name(a[i + 1..NameEnd(a, i + 1)]);
        assert s[i + 1..NameEnd(a, i + 1)] == a[i + 1..NameEnd(a, i + 1)];
        BehindTwice([name], Events(a, NameEnd(a, i + 1), binds).value, ShiftedAll(Events(b, 0, binds), |a| + 1));
      } else {
        assert s[i] == a[i] && s[i + 1] == (if i + 1 < |a| then a[i + 1] else '\n');
        EventsJoin(a, b, i + 1, binds);
        var rest := Events(a, i + 1, binds).value;
        BehindTwice([Semicolon(i)], rest, ShiftedAll(Events(b, 0, binds), |a| + 1));
      }
    }
  }

  lemma NewlineSkipsNothing(s: string, i: nat)
    requires i < |s| && s[i] == '\n'
    ensures SkipAt(s, i) == Nothing
  {
  }
}
