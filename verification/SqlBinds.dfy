/**
 The placeholders of a statement, the refusal of statement terminators, and the order binds are sent in
 (sql_binds.cpp, sql_statement.cpp), as scanning loops proved against the events of the text.
 */
module SqlBinds {
  import opened Protocol
  import opened Characters
  import opened SqlLexer

  // ----- names

  predicate AllDigits(text: string) {
    forall i :: 0 <= i < |text| ==> Digit(text[i])
  }

  /** A bind name in the form names are compared in; nothing when it is not a name. */
  function Canonical(name: string): Option<string> {
    if name == "" || |name| > 128 then None
    else if AllDigits(name) then if |name| > 1 && name[0] == '0' then None else Some(name)
    else if !(Letter(name[0]) || name[0] == '_') || exists i :: 1 <= i < |name| && !BindPart(name[i]) then None
    else Some(Upper(name))
  }

  /** Each value once, where it first stands. */
  function EachOnce(names: seq<string>): (r: seq<string>)
    ensures forall name :: name in r <==> name in names
    ensures forall i, j :: 0 <= i < j < |r| ==> r[i] != r[j]
    ensures |r| <= |names|
  {
    if names == [] then []
    else
      var last := names[|names| - 1];
      var before := EachOnce(names[..|names| - 1]);
      assert names == names[..|names| - 1] + [last];
      if last in before then before else before + [last]
  }

  /** The names of the events of a text; nothing when one of them is not a name. */
  function CanonicalNames(events: seq<Event>): Option<seq<string>> {
    if events == [] then Some([])
    else if events[0].Semicolon? then CanonicalNames(events[1..])
    else
      var first := Canonical(events[0].text);
      if first.None? then None else Behind([first.value], CanonicalNames(events[1..]))
  }

  /** Every placeholder from `i` on, as often as it stands there. */
  function NamesFrom(sql: string, i: nat): Option<seq<string>> {
    var events := Events(sql, i, true);
    if events.None? then None else CanonicalNames(events.value)
  }

  predicate ScannableSize(sql: string) {
    sql != "" && |sql| <= MAX_SQL_BYTES && '\0' !in sql
  }

  /** The placeholders of a statement in the order they first stand in it. */
  function Placeholders(sql: string): Option<seq<string>> {
    if !ScannableSize(sql) then None
    else
      var names := NamesFrom(sql, 0);
      if names.None? then None else Some(EachOnce(names.value))
  }

  // ----- the scanning loops

  method SkipLine(sql: string, i: nat) returns (end: nat)
    requires i <= |sql|
    ensures end == LineEnd(sql, i)
  {
    end := i;
    while end < |sql| && sql[end] != '\n' && sql[end] != '\r'
      invariant i <= end <= |sql| && LineEnd(sql, i) == LineEnd(sql, end)
    {
      end := end + 1;
    }
  }

  method SkipQuoted(sql: string, i: nat, quote: char) returns (end: Option<nat>)
    requires i < |sql|
    ensures end == QuoteEnd(sql, quote, i + 1)
  {
    var index := i + 1;
    while index < |sql|
      invariant QuoteEnd(sql, quote, i + 1) == QuoteEnd(sql, quote, index)
    {
      if sql[index] == quote {
        if index + 1 < |sql| && sql[index + 1] == quote {
          index := index + 2;
          continue;
        }
        return Some(index + 1);
      }
      index := index + 1;
    }
    return None;
  }

  method SkipName(sql: string, i: nat) returns (end: nat)
    requires i <= |sql|
    ensures end == NameEnd(sql, i)
  {
    end := i;
    while end < |sql| && BindPart(sql[end])
      invariant i <= end <= |sql| && NameEnd(sql, i) == NameEnd(sql, end)
    {
      end := end + 1;
    }
  }

  /** The comment and quote cases both loops begin with. */
  method SkipCommentOrQuote(sql: string, index: nat) returns (skip: Skip)
    requires index < |sql|
    ensures skip == SkipAt(sql, index)
  {
    hide LineEnd, FindPair, QuoteEnd;
    var character := sql[index];
    if character == '-' && index + 1 < |sql| && sql[index + 1] == '-' {
      var end := SkipLine(sql, index + 2);
      return To(end);
    }
    if character == '/' && index + 1 < |sql| && sql[index + 1] == '*' {
      var end := FindPair(sql, '*', '/', index + 2);
      return if end.None? then Unterminated else To(end.value + 2);
    }
    if character == '\'' || character == '"' {
      var end := SkipQuoted(sql, index, character);
      return if end.None? then Unterminated else To(end.value);
    }
    if (character == 'q' || character == 'Q') && index + 2 < |sql| && sql[index + 1] == '\'' {
      var end := FindPair(sql, QTerminator(sql[index + 2]), '\'', index + 3);
      return if end.None? then Unterminated else To(end.value + 2);
    }
    return Nothing;
  }

  /** One step of the placeholder scan: what it takes, and where it goes on. */
  lemma NamesStep(sql: string, i: nat)
    requires i < |sql|
    ensures SkipAt(sql, i).Unterminated? ==> NamesFrom(sql, i) == None
    ensures SkipAt(sql, i).To? ==> NamesFrom(sql, i) == NamesFrom(sql, SkipAt(sql, i).next)
    ensures SkipAt(sql, i).Nothing? && NameAt(sql, i) ==>
      var end := NameEnd(sql, i + 1);
      var name := Canonical(sql[i + 1..end]);
      && i + 1 < end <= |sql|
      && (name.None? ==> NamesFrom(sql, i) == None)
      && (name.Some? ==> NamesFrom(sql, i) == Behind([name.value], NamesFrom(sql, end)))
    ensures SkipAt(sql, i).Nothing? && !NameAt(sql, i) ==> NamesFrom(sql, i) == NamesFrom(sql, i + 1)
  {
    hide SkipAt, Canonical;
    if SkipAt(sql, i).Nothing? && NameAt(sql, i) {
      NameSpans(sql, i + 1);
      var end := NameEnd(sql, i + 1);
      var rest := Events(sql, end, true);
      if rest.Some? {
        assert ([Name(sql[i + 1..end])] + rest.value)[1..] == rest.value;
      }
    } else if SkipAt(sql, i).Nothing? {
      var rest := Events(sql, i + 1, true);
      if rest.Some? && sql[i] == ';' {
        assert ([Semicolon(i)] + rest.value)[1..] == rest.value;
      }
    }
  }

  lemma DistinctGrows(names: seq<string>, name: string)
    ensures EachOnce(names + [name]) == if name in EachOnce(names) then EachOnce(names) else EachOnce(names) + [name]
  {
    assert (names + [name])[..|names|] == names;
  }

  /** The placeholder scan: one pass, keeping each name the first time it is seen. */
  method ExtractPlaceholders(sql: string) returns (result: Option<seq<string>>)
    ensures result == Placeholders(sql)
  {
    hide NamesFrom, SkipAt, Canonical, EachOnce;
    if sql == "" || |sql| > MAX_SQL_BYTES || '\0' in sql {
      return None;
    }
    var names := [];
    ghost var taken := [];
    var index := 0;
    NothingTaken(sql);
    while index < |sql|
      invariant index <= |sql| && names == EachOnce(taken)
      invariant NamesFrom(sql, 0) == Behind(taken, NamesFrom(sql, index))
      decreases |sql| - index
    {
      NamesStep(sql, index);
      var skip := SkipCommentOrQuote(sql, index);
      if skip.Unterminated? {
        return None;
      } else if skip.To? {
        index := skip.next;
      } else if sql[index] == ':' && index + 1 < |sql| && sql[index + 1] != ':' && BindStart(sql[index + 1]) {
        var begin := index + 1;
        index := SkipName(sql, begin);
        var canonical := Canonical(sql[begin..index]);
        if canonical.None? {
          return None;
        }
        DistinctGrows(taken, canonical.value);
        if canonical.value !in names {
          names := names + [canonical.value];
        }
        BehindTwice(taken, [canonical.value], NamesFrom(sql, index));
        taken := taken + [canonical.value];
      } else {
        index := index + 1;
      }
    }
    NothingLeft(sql);
    assert taken + [] == taken;
    return Some(names);
  }

  lemma NothingTaken(sql: string)
    ensures NamesFrom(sql, 0) == Behind([], NamesFrom(sql, 0)) && EachOnce([]) == []
  {
    if NamesFrom(sql, 0).Some? {
      assert [] + NamesFrom(sql, 0).value == NamesFrom(sql, 0).value;
    }
  }

  lemma NothingLeft(sql: string)
    ensures NamesFrom(sql, |sql|) == Some([])
  {
  }

  /** A statement in which the terminator scan sees no semicolon, and everything is terminated. */
  predicate NoTerminators(sql: string) {
    Events(sql, 0, false) == Some([])
  }

  lemma TerminatorsStep(sql: string, i: nat)
    requires i < |sql|
    ensures SkipAt(sql, i).Unterminated? ==> Events(sql, i, false) == None
    ensures SkipAt(sql, i).To? ==> Events(sql, i, false) == Events(sql, SkipAt(sql, i).next, false)
    ensures SkipAt(sql, i).Nothing? && sql[i] == ';' ==> Events(sql, i, false) != Some([])
    ensures SkipAt(sql, i).Nothing? && sql[i] != ';' ==> Events(sql, i, false) == Events(sql, i + 1, false)
  {
  }

  /** The terminator scan: it stops at the first semicolon it sees. */
  method RejectTerminators(sql: string) returns (accepted: bool)
    ensures accepted == NoTerminators(sql)
  {
    hide Events, SkipAt;
    var index := 0;
    while index < |sql|
      invariant index <= |sql|
      invariant Events(sql, 0, false) == Some([]) <==> Events(sql, index, false) == Some([])
      decreases |sql| - index
    {
      TerminatorsStep(sql, index);
      var skip := SkipCommentOrQuote(sql, index);
      if skip.Unterminated? {
        return false;
      } else if skip.To? {
        index := skip.next;
      } else if sql[index] == ';' {
        return false;
      } else {
        index := index + 1;
      }
    }
    AtTheEnd(sql);
    return true;
  }

  lemma AtTheEnd(sql: string)
    ensures Events(sql, |sql|, false) == Some([])
  {
  }
}
