/**
 Names of procedures and functions (call_builder.cpp): one to three components, quoted or not, split into the names
 the data dictionary stores.
 */
module CallableName {
  import opened Protocol
  import opened Characters

  const MAX_COMPONENTS: nat := 3
  const MAX_IDENTIFIER_BYTES: nat := 128

  predicate IdentifierStart(c: char) {
    Letter(c) || c == '_'
  }

  predicate IdentifierPart(c: char) {
    IdentifierStart(c) || Digit(c) || c == '$' || c == '#'
  }

  predicate Control(c: char) {
    c < ' ' || c as int == 0x7F
  }

  // ----- one component

  /** The end of a quoted component, its quote closed, from inside it; nothing when it is not closed or holds a
      control character. */
  function QuotedEnd(value: string, offset: nat): (end: Option<nat>)
    ensures end.Some? ==> offset < end.value <= |value|
    decreases |value| - offset
  {
    if offset >= |value| then None
    else if value[offset] == '"' then
      if offset + 1 < |value| && value[offset + 1] == '"' then QuotedEnd(value, offset + 2) else Some(offset + 1)
    else if Control(value[offset]) then None
    else QuotedEnd(value, offset + 1)
  }

  function PlainEnd(value: string, offset: nat): (end: nat)
    requires offset <= |value|
    ensures offset <= end <= |value|
    decreases |value| - offset
  {
    if offset < |value| && IdentifierPart(value[offset]) then PlainEnd(value, offset + 1) else offset
  }

  /** The end of the component at `offset`; nothing when there is none there. */
  function ComponentEnd(value: string, offset: nat): (end: Option<nat>)
    ensures end.Some? ==> offset < end.value <= |value|
  {
    if offset >= |value| then None
    else if value[offset] == '"' then
      var end := QuotedEnd(value, offset + 1);
      // a component of nothing but its quotes is refused
      if end.None? || end.value == offset + 2 || end.value - offset > MAX_IDENTIFIER_BYTES then None else end
    else if !IdentifierStart(value[offset]) then None
    else
      var end := PlainEnd(value, offset + 1);
      if end - offset > MAX_IDENTIFIER_BYTES then None else Some(end)
  }

  /** The components from `offset` on, `taken` before them; nothing when the rest is not a name. */
  function ComponentsFrom(value: string, offset: nat, taken: nat): Option<seq<string>>
    decreases |value| - offset
  {
    if offset >= |value| then Some([])
    else
      var end := ComponentEnd(value, offset);
      if end.None? || taken == MAX_COMPONENTS then None
      else
        var component := value[offset..end.value];
        if end.value == |value| then Some([component])
        else if value[end.value] != '.' then None
        else Behind([component], ComponentsFrom(value, end.value + 1, taken + 1))
  }

  function Components(value: string): Option<seq<string>> {
    if value == "" then None else ComponentsFrom(value, 0, 0)
  }

  // ----- what the dictionary stores

  /** The text of a quoted component from `index` on: a doubled quote stands for one, the last closes it. */
  function Unquoted(component: string, index: nat): string
    decreases |component| - index
  {
    if index + 1 >= |component| then ""
    else [component[index]] + Unquoted(component, if component[index] == '"' then index + 2 else index + 1)
  }

  function StoredName(component: string): string {
    if component != "" && component[0] == '"' then Unquoted(component, 1) else Upper(component)
  }

  function StoredNames(components: seq<string>): seq<string> {
    if components == [] then [] else [StoredName(components[0])] + StoredNames(components[1..])
  }

  function Split(value: string): Option<seq<string>> {
    var components := Components(value);
    if components.None? then None else Some(StoredNames(components.value))
  }

  // ----- the loops

  method ParseComponent(value: string, offset: nat) returns (end: Option<nat>)
    ensures end == ComponentEnd(value, offset)
  {
    if offset >= |value| {
      return None;
    }
    var at := offset;
    if value[offset] == '"' {
      at := at + 1;
      while at < |value|
        invariant offset < at
        invariant QuotedEnd(value, offset + 1) == QuotedEnd(value, at)
        decreases |value| - at
      {
        if value[at] == '"' {
          if at + 1 < |value| && value[at + 1] == '"' {
            at := at + 2;
            continue;
          }
          at := at + 1;
          return if at == offset + 2 || at - offset > MAX_IDENTIFIER_BYTES then None else Some(at);
        }
        if Control(value[at]) {
          return None;
        }
        at := at + 1;
      }
      return None;
    }
    if !IdentifierStart(value[offset]) {
      return None;
    }
    at := at + 1;
    while at < |value| && IdentifierPart(value[at])
      invariant offset < at <= |value|
      invariant PlainEnd(value, offset + 1) == PlainEnd(value, at)
    {
      at := at + 1;
    }
    return if at - offset > MAX_IDENTIFIER_BYTES then None else Some(at);
  }

  method UnquoteComponent(component: string) returns (stored: string)
    ensures stored == Unquoted(component, 1)
  {
    hide Unquoted;
    stored := "";
    var index := 1;
    assert "" + Unquoted(component, 1) == Unquoted(component, 1);
    while index + 1 < |component|
      invariant Unquoted(component, 1) == stored + Unquoted(component, index)
      decreases |component| - index
    {
      UnquotedStep(component, index);
      var next := index + (if component[index] == '"' then 2 else 1);
      assert stored + ([component[index]] + Unquoted(component, next)) == stored + [component[index]] + Unquoted(component, next);
      stored := stored + [component[index]];
      index := next;
    }
    UnquotedEnds(component, index);
    assert stored + "" == stored;
  }

  lemma UnquotedStep(component: string, index: nat)
    requires index + 1 < |component|
    ensures Unquoted(component, index)
         == [component[index]] + Unquoted(component, if component[index] == '"' then index + 2 else index + 1)
  {
  }

  lemma UnquotedEnds(component: string, index: nat)
    requires index + 1 >= |component|
    ensures Unquoted(component, index) == ""
  {
  }

  /** Splits a name, component by component. */
  method SplitOracleCallableName(value: string) returns (names: Option<seq<string>>)
    ensures names == Split(value)
  {
    hide ComponentEnd, Unquoted, Upper;
    if value == "" {
      return None;
    }
    var stored: seq<string> := [];
    ghost var components: seq<string> := [];
    var offset := 0;
    NothingBehind(ComponentsFrom(value, 0, 0));
    while offset < |value|
      invariant stored == StoredNames(components) && |components| == |stored|
      invariant Components(value) == Behind(components, ComponentsFrom(value, offset, |components|))
      decreases |value| - offset
    {
      var end := ParseComponent(value, offset);
      if end.None? || |stored| == MAX_COMPONENTS {
        return None;
      }
      var component := value[offset..end.value];
      var name;
      if component[0] == '"' {
        name := UnquoteComponent(component);
      } else {
        name := Upper(component);
      }
      StoredNext(components, component);
      BehindTwice(components, [component], ComponentsFrom(value, end.value + 1, |components| + 1));
      stored := stored + [name];
      components := components + [component];
      if end.value == |value| {
        return Some(stored);
      }
      if value[end.value] != '.' {
        return None;
      }
      offset := end.value + 1;
    }
    assert components + [] == components;
    return Some(stored);
  }

  lemma {:induction false} StoredNext(components: seq<string>, component: string)
    ensures StoredNames(components + [component]) == StoredNames(components) + [StoredName(component)]
    ensures |StoredNames(components)| == |components| ==> |StoredNames(components + [component])| == |components| + 1
  {
    hide StoredName;
    if components == [] {
      assert (components + [component])[1..] == [];
      assert StoredNames([component]) == [StoredName(component)] + StoredNames([]);
    } else {
      assert (components + [component])[1..] == components[1..] + [component];
      StoredNext(components[1..], component);
    }
  }

  // ----- writing a name

  function Doubled(name: string): string {
    if name == "" then "" else (if name[0] == '"' then "\"\"" else [name[0]]) + Doubled(name[1..])
  }

  /** A stored name as a quoted component. */
  function QuotedName(name: string): string {
    "\"" + Doubled(name) + "\""
  }

  predicate Nameable(name: string) {
    && name != "" && |QuotedName(name)| <= MAX_IDENTIFIER_BYTES
    && forall i :: 0 <= i < |name| ==> !Control(name[i])
  }

  /** Names written as quoted components with points between them. */
  function Spelled(names: seq<string>): string {
    if names == [] then ""
    else if |names| == 1 then QuotedName(names[0])
    else QuotedName(names[0]) + "." + Spelled(names[1..])
  }

  lemma {:induction false} QuoteCloses(prefix: string, name: string, rest: string)
    requires rest == "" || rest[0] != '"'
    requires forall i :: 0 <= i < |name| ==> !Control(name[i])
    ensures QuotedEnd(prefix + Doubled(name) + ("\"" + rest), |prefix|) == Some(|prefix| + |Doubled(name)| + 1)
    decreases |name|
  {
    var value := prefix + Doubled(name) + ("\"" + rest);
    var at := |prefix|;
    if name == "" {
      assert value[at] == '"' && (at + 1 < |value| ==> value[at + 1] == rest[0]);
    } else {
      var first := if name[0] == '"' then "\"\"" else [name[0]];
      assert Doubled(name) == first + Doubled(name[1..]);
      QuoteCloses(prefix + first, name[1..], rest);
      assert prefix + first + Doubled(name[1..]) + ("\"" + rest) == value;
      assert value[at] == first[0] && (name[0] == '"' ==> value[at + 1] == first[1]);
    }
  }

  lemma DoubledIsSomething(name: string)
    requires name != ""
    ensures Doubled(name) != ""
  {
  }

  /** A quoted name, in front of anything but a quote, is one component. */
  lemma NameIsAComponent(prefix: string, name: string, rest: string)
    requires Nameable(name) && (rest == "" || rest[0] != '"')
    ensures ComponentEnd(prefix + QuotedName(name) + rest, |prefix|) == Some(|prefix| + |QuotedName(name)|)
  {
    hide QuotedEnd, Doubled, PlainEnd;
    var value := prefix + QuotedName(name) + rest;
    QuoteCloses(prefix + "\"", name, rest);
    DoubledIsSomething(name);
    assert value == (prefix + "\"") + Doubled(name) + ("\"" + rest);
    assert |value| > |prefix| && value[|prefix|] == '"';
    QuotedComponent(value, |prefix|);
  }

  lemma QuotedComponent(value: string, offset: nat)
    requires offset < |value| && value[offset] == '"' && QuotedEnd(value, offset + 1).Some?
    requires QuotedEnd(value, offset + 1).value != offset + 2
    requires QuotedEnd(value, offset + 1).value - offset <= MAX_IDENTIFIER_BYTES
    ensures ComponentEnd(value, offset) == QuotedEnd(value, offset + 1)
  {
    hide QuotedEnd;
  }

  lemma {:induction false} UnquotesBack(prefix: string, name: string)
    ensures Unquoted(prefix + Doubled(name) + "\"", |prefix|) == name
    decreases |name|
  {
    var component := prefix + Doubled(name) + "\"";
    if name != "" {
      var first := if name[0] == '"' then "\"\"" else [name[0]];
      assert Doubled(name) == first + Doubled(name[1..]);
      UnquotesBack(prefix + first, name[1..]);
      assert prefix + first + Doubled(name[1..]) + "\"" == component;
      assert component[|prefix|] == name[0];
      assert name == [name[0]] + name[1..];
    }
  }

  lemma NameIsStored(name: string)
    ensures StoredName(QuotedName(name)) == name
  {
    UnquotesBack("\"", name);
    assert QuotedName(name)[0] == '"';
  }

  lemma {:induction false} SpelledComponents(prefix: string, names: seq<string>, taken: nat)
    requires names != [] && taken + |names| <= MAX_COMPONENTS
    requires forall i :: 0 <= i < |names| ==> Nameable(names[i])
    ensures var r := ComponentsFrom(prefix + Spelled(names), |prefix|, taken);
      r.Some? && StoredNames(r.value) == names
    decreases |names|
  {
    hide ComponentEnd, Nameable, StoredName, QuotedName, ComponentsFrom;
    var first := QuotedName(names[0]);
    NameIsStored(names[0]);
    OneStored(first);
    if |names| == 1 {
      LastComponent(prefix, names[0], taken);
      assert names == [names[0]];
    } else {
      var rest := Spelled(names[1..]);
      assert prefix + Spelled(names) == prefix + first + ("." + rest);
      SpelledComponents(prefix + first + ".", names[1..], taken + 1);
      hide Spelled;
      FirstComponent(prefix, names[0], rest, taken);
      StoredFirst(first, ComponentsFrom(prefix + first + "." + rest, |prefix| + |first| + 1, taken + 1).value);
      assert names == [names[0]] + names[1..];
    }
  }

  lemma LastComponent(prefix: string, name: string, taken: nat)
    requires Nameable(name) && taken < MAX_COMPONENTS
    ensures ComponentsFrom(prefix + QuotedName(name), |prefix|, taken) == Some([QuotedName(name)])
  {
    hide ComponentEnd, Nameable, QuotedName;
    var value := prefix + QuotedName(name);
    NameIsAComponent(prefix, name, "");
    assert value + "" == value;
    assert value[|prefix|..|value|] == QuotedName(name);
  }

  lemma FirstComponent(prefix: string, name: string, rest: string, taken: nat)
    requires Nameable(name) && taken < MAX_COMPONENTS
    ensures var first := QuotedName(name);
      ComponentsFrom(prefix + first + ("." + rest), |prefix|, taken)
      == Behind([first], ComponentsFrom(prefix + first + "." + rest, |prefix| + |first| + 1, taken + 1))
  {
    hide ComponentEnd, Nameable, QuotedName, ComponentsFrom;
    var first := QuotedName(name);
    var value := prefix + first + ("." + rest);
    assert value == prefix + first + "." + rest;
    NameIsAComponent(prefix, name, "." + rest);
    assert value[|prefix|..|prefix| + |first|] == first && value[|prefix| + |first|] == '.';
    NextComponent(value, |prefix|, |prefix| + |first|, taken);
  }

  lemma NextComponent(value: string, offset: nat, end: nat, taken: nat)
    requires ComponentEnd(value, offset) == Some(end) && end < |value| && value[end] == '.' && taken < MAX_COMPONENTS
    ensures ComponentsFrom(value, offset, taken)
         == Behind([value[offset..end]], ComponentsFrom(value, end + 1, taken + 1))
  {
    hide ComponentEnd;
  }

  lemma StoredFirst(first: string, more: seq<string>)
    ensures StoredNames([first] + more) == [StoredName(first)] + StoredNames(more)
  {
    assert ([first] + more)[1..] == more;
    hide StoredName;
  }

  lemma OneStored(component: string)
    ensures StoredNames([component]) == [StoredName(component)]
  {
    hide StoredName;
    assert [component][1..] == [];
  }

  /** One to three stored names written as quoted components, with points between them, split into those names. */
  lemma SpelledNamesSplit(names: seq<string>)
    requires 1 <= |names| <= MAX_COMPONENTS && forall i :: 0 <= i < |names| ==> Nameable(names[i])
    ensures Split(Spelled(names)) == Some(names)
  {
    hide Nameable, ComponentsFrom, QuotedName;
    SpelledComponents("", names, 0);
    assert "" + Spelled(names) == Spelled(names);
    SpelledIsSomething(names);
  }

  lemma {:induction false} SpelledIsSomething(names: seq<string>)
    requires names != []
    ensures Spelled(names) != "" && Spelled(names)[|Spelled(names)| - 1] == '"'
    decreases |names|
  {
    if |names| > 1 {
      SpelledIsSomething(names[1..]);
    }
  }

  // ----- exactly which texts are accepted

  /** The components of a name that ends with a component. */
  function StrictFrom(value: string, offset: nat, taken: nat): Option<seq<string>>
    decreases |value| - offset
  {
    var end := ComponentEnd(value, offset);
    if end.None? || taken == MAX_COMPONENTS then None
    else
      var component := value[offset..end.value];
      if end.value == |value| then Some([component])
      else if value[end.value] != '.' then None
      else Behind([component], StrictFrom(value, end.value + 1, taken + 1))
  }

  lemma {:induction false} QuotedEndShorter(value: string, offset: nat)
    requires value != "" && value[|value| - 1] == '.'
    ensures var shorter := value[..|value| - 1];
      (QuotedEnd(shorter, offset).Some? ==> QuotedEnd(value, offset) == QuotedEnd(shorter, offset))
      && (QuotedEnd(value, offset).Some? ==> QuotedEnd(shorter, offset) == QuotedEnd(value, offset))
    decreases |value| - offset
  {
    if offset < |value| - 1 {
      QuotedEndShorter(value, offset + 1);
      if value[offset] == '"' && offset + 1 < |value| - 1 && value[offset + 1] == '"' {
        QuotedEndShorter(value, offset + 2);
      }
    }
  }

  lemma {:induction false} PlainEndShorter(value: string, offset: nat)
    requires value != "" && value[|value| - 1] == '.' && offset <= |value| - 1
    ensures PlainEnd(value[..|value| - 1], offset) == PlainEnd(value, offset)
    decreases |value| - offset
  {
    if offset < |value| - 1 && IdentifierPart(value[offset]) {
      PlainEndShorter(value, offset + 1);
    }
  }

  /** A component does not reach a point at the end of the text, nor need it. */
  lemma ComponentEndShorter(value: string, offset: nat)
    requires value != "" && value[|value| - 1] == '.'
    ensures ComponentEnd(value[..|value| - 1], offset) == ComponentEnd(value, offset)
    ensures ComponentEnd(value, offset).Some? ==> ComponentEnd(value, offset).value < |value|
  {
    hide QuotedEnd, PlainEnd;
    QuotedEndShorter(value, offset + 1);
    if offset + 1 <= |value| - 1 {
      PlainEndShorter(value, offset + 1);
    }
  }

  lemma {:induction false} AcceptedFrom(value: string, offset: nat, taken: nat)
    requires offset < |value|
    ensures var shorter := value[..|value| - 1];
      ComponentsFrom(value, offset, taken)
      == if value[|value| - 1] == '.' then StrictFrom(shorter, offset, taken) else StrictFrom(value, offset, taken)
    decreases |value| - offset
  {
    hide ComponentEnd;
    var point := value[|value| - 1] == '.';
    var shorter := value[..|value| - 1];
    if point {
      ComponentEndShorter(value, offset);
    }
    var end := ComponentEnd(value, offset);
    if end.Some? && taken != MAX_COMPONENTS && end.value < |value| && value[end.value] == '.' {
      var component := value[offset..end.value];
      if end.value + 1 < |value| {
        AcceptedFrom(value, end.value + 1, taken + 1);
        assert point ==> shorter[end.value] == '.';
      } else {
        assert ComponentsFrom(value, end.value + 1, taken + 1) == Some([]);
        assert [component] + [] == [component];
      }
      assert point ==> shorter[offset..end.value] == component;
    }
  }

  /** A text is accepted just when it is one to three components with a point between each two, or that with one
      more point behind it, and it is split the same with that point and without. */
  lemma AcceptedExactly(value: string)
    ensures Components(value)
         == if value == "" then None
            else StrictFrom(if value[|value| - 1] == '.' then value[..|value| - 1] else value, 0, 0)
  {
    hide ComponentsFrom, StrictFrom;
    if value != "" {
      AcceptedFrom(value, 0, 0);
    }
  }

  /** The loop ends where the text does, so a point behind the last component is passed over: the refusal of an empty
      component is never reached there. */
  lemma TrailingPointIsAccepted(names: seq<string>)
    requires 1 <= |names| <= MAX_COMPONENTS && forall i :: 0 <= i < |names| ==> Nameable(names[i])
    ensures Split(Spelled(names) + ".") == Some(names)
  {
    hide Nameable, Components, Spelled, StoredNames;
    SpelledNamesSplit(names);
    SpelledIsSomething(names);
    PointIsPassedOver(Spelled(names));
  }

  lemma PointIsPassedOver(value: string)
    requires value != "" && value[|value| - 1] != '.'
    ensures Components(value + ".") == Components(value)
  {
    hide StrictFrom, Components;
    AcceptedExactly(value);
    AcceptedExactly(value + ".");
    assert (value + ".")[..|value|] == value;
  }
}
