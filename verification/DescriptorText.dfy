/**
 The text of an Oracle Net descriptor (descriptor_parser.cpp): a recursive-descent parser over nested (key=value)
 nodes, against every way of writing a tree with white space between its tokens.
 */
module DescriptorText {
  import opened Protocol
  import opened Characters

  const MAX_DESCRIPTOR_BYTES: nat := 65535
  const MAX_DEPTH: nat := 16
  const MAX_QUOTED_BYTES: nat := 1024

  datatype Node = Node(key: string, value: string, children: seq<Node>)

  // ----- characters

  /** A character of an unquoted key or value. */
  predicate AtomCharacter(c: char) {
    '!' <= c <= '~' && c != '(' && c != '='
  }

  predicate QuotedCharacter(c: char) {
    ' ' <= c <= '~' && c != '"'
  }

  // ----- the grammar, over what is left of the text

  function Skip(s: string): (rest: string)
    ensures |rest| <= |s|
    ensures rest != "" ==> !Space(rest[0])
  {
    if s != "" && Space(s[0]) then Skip(s[1..]) else s
  }

  /** A piece of text read, and what is left. */
  type Read = Option<(string, string)>

  /** From inside an unquoted atom of which `i` characters are read. */
  function AtomFrom(s: string, i: nat, terminator: char): (r: Read)
    requires i <= |s|
    ensures r.Some? ==> r.value.0 != "" && r.value.1 != "" && r.value.1[0] == terminator && |r.value.1| < |s|
    decreases |s| - i
  {
    if i == |s| then None
    else if s[i] == terminator then if i == 0 then None else Some((s[..i], s[i..]))
    else if Space(s[i]) then
      var rest := Skip(s[i..]);
      if i == 0 || rest == "" || rest[0] != terminator then None else Some((s[..i], rest))
    else if !AtomCharacter(s[i]) then None
    else AtomFrom(s, i + 1, terminator)
  }

  /** The end of a quoted value's text from `i` on; nothing when it is not closed or holds another character. */
  function QuotedEnd(s: string, i: nat): (end: Option<nat>)
    requires i <= |s|
    ensures end.Some? ==> i <= end.value < |s| && s[end.value] == '"'
    decreases |s| - i
  {
    if i == |s| then None
    else if s[i] == '"' then Some(i)
    else if !QuotedCharacter(s[i]) then None
    else QuotedEnd(s, i + 1)
  }

  lemma QuotedStep(s: string, i: nat)
    requires i <= |s|
    ensures QuotedEnd(s, i) == if i == |s| then None else if s[i] == '"' then Some(i)
                               else if !QuotedCharacter(s[i]) then None else QuotedEnd(s, i + 1)
  {
  }

  /** A quoted value, its opening quote read. */
  function Quoted(s: string): (r: Read)
    ensures r.Some? ==> |r.value.1| < |s|
  {
    var end := QuotedEnd(s, 0);
    if end.None? || end.value == 0 || end.value > MAX_QUOTED_BYTES then None
    else
      var rest := Skip(s[end.value + 1..]);
      if rest == "" || rest[0] != ')' then None else Some((s[..end.value], rest))
  }

  function Atom(s: string, terminator: char): (r: Read)
    ensures r.Some? ==> |r.value.1| < |s|
  {
    if terminator == ')' && s != "" && s[0] == '"' then Quoted(s[1..]) else AtomFrom(s, 0, terminator)
  }

  /** The key of a node, up to and over its '='. */
  function KeyOf(s: string): (r: Read)
    ensures r.Some? ==> |r.value.1| < |s|
  {
    var key := Atom(Skip(s), '=');
    if key.None? then None
    else
      var rest := Skip(key.value.1);
      if rest == "" || rest[0] != '=' then None else Some((key.value.0, Skip(rest[1..])))
  }

  type NodeRead = Option<(Node, string)>

  function Closed(node: Node, s: string): NodeRead {
    var rest := Skip(s);
    if rest == "" || rest[0] != ')' then None else Some((node, rest[1..]))
  }

  function ParseNode(s: string, depth: nat): (r: NodeRead)
    ensures r.Some? ==> |r.value.1| < |s|
    decreases |s|, 0
  {
    if depth > MAX_DEPTH || s == "" || s[0] != '(' then None
    else
      var key := KeyOf(s[1..]);
      if key.None? then None
      else
        var body := key.value.1;
        if body != "" && body[0] == '(' then
          var children := ParseChildren(body, depth + 1);
          if children.None? then None
          else Closed(Node(Upper(key.value.0), "", children.value.0), children.value.1)
        else
          var value := Atom(body, ')');
          if value.None? then None else Closed(Node(Upper(key.value.0), value.value.0, []), value.value.1)
  }

  function ParseChildren(s: string, depth: nat): (r: Option<(seq<Node>, string)>)
    ensures r.Some? ==> |r.value.1| <= |s|
    decreases |s|, 1
  {
    if s == "" || s[0] != '(' then Some(([], s))
    else
      var first := ParseNode(s, depth);
      if first.None? then None
      else
        var more := ParseChildren(Skip(first.value.1), depth);
        if more.None? then None else Some(([first.value.0] + more.value.0, more.value.1))
  }

  /** The whole text. */
  function ParseText(text: string): Option<Node> {
    if text == "" || |text| > MAX_DESCRIPTOR_BYTES then None
    else
      var node := ParseNode(Skip(text), 0);
      if node.None? || Skip(node.value.1) != "" then None else Some(node.value.0)
  }

  // ----- the parser

  /** The parser, which moves a position over its input. */
  class Parser {
    const input: string
    var position: nat

    constructor (input: string)
      ensures this.input == input && position == 0
    {
      this.input := input;
      position := 0;
    }

    predicate Valid()
      reads this
    {
      position <= |input|
    }

    /** What is left of the input. */
    function Left(): string
      requires Valid()
      reads this
    {
      input[position..]
    }

    method SkipWhitespace()
      requires Valid()
      modifies this
      ensures Valid() && old(position) <= position && Left() == Skip(old(Left()))
    {
      while position < |input| && Space(input[position])
        invariant Valid() && old(position) <= position && Skip(Left()) == Skip(old(Left()))
      {
        assert Left()[1..] == input[position + 1..];
        position := position + 1;
      }
    }

    /** Moves to the quote that closes a value. */
    method FindClosingQuote() returns (closed: bool)
      requires Valid()
      modifies this
      ensures Valid() && old(position) <= position
      ensures closed <==> QuotedEnd(old(Left()), 0).Some?
      ensures closed ==> position == old(position) + QuotedEnd(old(Left()), 0).value
    {
      hide QuotedEnd;
      ghost var s := Left();
      var start := position;
      while position < |input| && input[position] != '"'
        invariant Valid() && start <= position
        invariant QuotedEnd(s, 0) == QuotedEnd(s, position - start)
      {
        assert s[position - start] == input[position];
        QuotedStep(s, position - start);
        if !QuotedCharacter(input[position]) {
          return false;
        }
        position := position + 1;
      }
      QuotedStep(s, position - start);
      return position < |input|;
    }

    method ParseQuotedAtom() returns (r: Option<string>)
      requires Valid() && position < |input|
      modifies this
      ensures Valid() && old(position) <= position
      ensures r.None? <==> (var end := QuotedEnd(old(Left())[1..], 0);
                            end.None? || end.value == 0 || end.value > MAX_QUOTED_BYTES)
      ensures r.Some? ==>
        var end := QuotedEnd(old(Left())[1..], 0).value;
        r.value == old(Left())[1..][..end] && Left() == old(Left())[1..][end + 1..]
    {
      hide QuotedEnd;
      position := position + 1;
      var start := position;
      ghost var s := Left();
      assert s == old(Left())[1..];
      var closed := FindClosingQuote();
      if !closed {
        return None;
      }
      var value := input[start..position];
      assert value == s[..position - start];
      position := position + 1;
      assert Left() == s[position - start..];
      return if value == "" || |value| > MAX_QUOTED_BYTES then None else Some(value);
    }

    /** A quoted value and the white space up to the end of its node. */
    method ParseQuotedValue() returns (r: Option<string>)
      requires Valid() && position < |input|
      modifies this
      ensures Valid() && old(position) <= position
      ensures r.None? <==> Quoted(old(Left())[1..]).None?
      ensures r.Some? ==> Quoted(old(Left())[1..]) == Some((r.value, Left()))
    {
      hide QuotedEnd;
      var value := ParseQuotedAtom();
      if value.None? {
        return None;
      }
      SkipWhitespace();
      return if position >= |input| || input[position] != ')' then None else value;
    }

    /** An unquoted key or value. */
    method ParsePlainAtom(terminator: char) returns (r: Option<string>)
      requires Valid()
      modifies this
      ensures Valid() && old(position) <= position
      ensures r.None? <==> AtomFrom(old(Left()), 0, terminator).None?
      ensures r.Some? ==> AtomFrom(old(Left()), 0, terminator) == Some((r.value, Left()))
    {
      var start := position;
      ghost var s := Left();
      while position < |input| && input[position] != terminator
        invariant Valid() && start <= position
        invariant AtomFrom(s, 0, terminator) == AtomFrom(s, position - start, terminator)
      {
        ghost var i := position - start;
        assert s[i] == input[position] && s[i..] == Left();
        if Space(input[position]) {
          var end := position;
          assert s[..i] == input[start..end];
          SkipWhitespace();
          if end == start || position == |input| || input[position] != terminator {
            return None;
          }
          return Some(input[start..end]);
        }
        if !AtomCharacter(input[position]) {
          return None;
        }
        position := position + 1;
      }
      assert s[..position - start] == input[start..position] && s[position - start..] == Left();
      return if position == start || position == |input| then None else Some(input[start..position]);
    }

    method ParseAtom(terminator: char) returns (r: Option<string>)
      requires Valid()
      modifies this
      ensures Valid() && old(position) <= position
      ensures r.None? <==> Atom(old(Left()), terminator).None?
      ensures r.Some? ==> Atom(old(Left()), terminator) == Some((r.value, Left()))
    {
      hide Quoted, AtomFrom;
      if terminator == ')' && position < |input| && input[position] == '"' {
        r := ParseQuotedValue();
      } else {
        r := ParsePlainAtom(terminator);
      }
    }

    /** The opening of a node: its key, and over the '='. */
    method ParseKey() returns (r: Option<string>)
      requires Valid()
      modifies this
      ensures Valid() && old(position) <= position
      ensures r.None? <==> KeyOf(old(Left())).None?
      ensures r.Some? ==> KeyOf(old(Left())) == Some((r.value, Left()))
    {
      hide Atom;
      SkipWhitespace();
      var key := ParseAtom('=');
      if key.None? {
        return None;
      }
      SkipWhitespace();
      if position >= |input| || input[position] != '=' {
        return None;
      }
      assert Left()[1..] == input[position + 1..];
      position := position + 1;
      SkipWhitespace();
      return key;
    }

    method ParseClose(node: Node) returns (r: Option<Node>)
      requires Valid()
      modifies this
      ensures Valid() && old(position) <= position
      ensures r.None? <==> Closed(node, old(Left())).None?
      ensures r.Some? ==> Closed(node, old(Left())) == Some((r.value, Left())) && r.value == node
    {
      SkipWhitespace();
      if position >= |input| || input[position] != ')' {
        return None;
      }
      assert Left()[1..] == input[position + 1..];
      position := position + 1;
      return Some(node);
    }

    method ParseNodeAt(depth: nat) returns (r: Option<Node>)
      requires Valid()
      modifies this
      ensures Valid() && old(position) <= position
      ensures r.None? <==> ParseNode(old(Left()), depth).None?
      ensures r.Some? ==> ParseNode(old(Left()), depth) == Some((r.value, Left()))
      decreases |input| - position, 0
    {
      hide KeyOf, Atom, Closed, ParseChildren;
      if depth > MAX_DEPTH || position >= |input| || input[position] != '(' {
        return None;
      }
      assert Left()[1..] == input[position + 1..];
      position := position + 1;
      var key := ParseKey();
      if key.None? {
        return None;
      }
      if position < |input| && input[position] == '(' {
        var children := ParseChildrenAt(depth + 1);
        if children.None? {
          return None;
        }
        r := ParseClose(Node(Upper(key.value), "", children.value));
      } else {
        var value := ParseAtom(')');
        if value.None? {
          return None;
        }
        r := ParseClose(Node(Upper(key.value), value.value, []));
      }
    }

    method ParseChildrenAt(depth: nat) returns (r: Option<seq<Node>>)
      requires Valid()
      modifies this
      ensures Valid() && old(position) <= position
      ensures r.None? <==> ParseChildren(old(Left()), depth).None?
      ensures r.Some? ==> ParseChildren(old(Left()), depth) == Some((r.value, Left()))
      decreases |input| - position, 1
    {
      hide ParseNode;
      var children := [];
      ghost var s := Left();
      NothingBefore(ParseChildren(s, depth));
      while position < |input| && input[position] == '('
        invariant Valid() && old(position) <= position
        invariant ParseChildren(s, depth) == Before(children, ParseChildren(Left(), depth))
        decreases |input| - position
      {
        ghost var at := Left();
        var child := ParseNodeAt(depth);
        if child.None? {
          return None;
        }
        SkipWhitespace();
        BeforeTwice(children, child.value, ParseChildren(Left(), depth));
        children := children + [child.value];
      }
      assert children + [] == children;
      return Some(children);
    }

    method Parse() returns (r: Option<Node>)
      requires position == 0
      modifies this
      ensures r == ParseText(input)
    {
      hide ParseNode;
      if input == "" || |input| > MAX_DESCRIPTOR_BYTES {
        return None;
      }
      assert Left() == input;
      SkipWhitespace();
      var node := ParseNodeAt(0);
      if node.None? {
        return None;
      }
      SkipWhitespace();
      return if position != |input| then None else node;
    }
  }

  ghost function Before(children: seq<Node>, rest: Option<(seq<Node>, string)>): Option<(seq<Node>, string)> {
    if rest.None? then None else Some((children + rest.value.0, rest.value.1))
  }

  lemma NothingBefore(rest: Option<(seq<Node>, string)>)
    ensures Before([], rest) == rest
  {
    if rest.Some? {
      assert [] + rest.value.0 == rest.value.0;
    }
  }

  lemma BeforeTwice(children: seq<Node>, child: Node, rest: Option<(seq<Node>, string)>)
    ensures Before(children, Before([child], rest)) == Before(children + [child], rest)
  {
    if rest.Some? {
      assert children + ([child] + rest.value.0) == children + [child] + rest.value.0;
    }
  }

  // ----- every way of writing a tree

  /** A value as it is written. */
  datatype Written = Plain(text: string) | InQuotes(text: string)

  /** A tree with the white space it is written with: before the key, around the '=', before the ')' of a value, and
      behind the node. */
  datatype Laid = Scalar(before: string, key: string, gap: string, after: string, value: Written, close: string,
                         behind: string)
                | Section(before: string, key: string, gap: string, after: string, children: seq<Laid>, behind: string)

  predicate Blank(s: string) {
    forall i :: 0 <= i < |s| ==> Space(s[i])
  }

  predicate IsKey(key: string) {
    key != "" && forall i :: 0 <= i < |key| ==> AtomCharacter(key[i])
  }

  predicate IsWritten(value: Written) {
    match value
    case Plain(text) =>
      text != "" && text[0] != '"' && forall i :: 0 <= i < |text| ==> AtomCharacter(text[i]) && text[i] != ')'
    case InQuotes(text) => 0 < |text| <= MAX_QUOTED_BYTES && forall i :: 0 <= i < |text| ==> QuotedCharacter(text[i])
  }

  /** Keys and values as the grammar has them, only white space between the tokens, and no deeper than the parser
      goes. */
  predicate Proper(laid: Laid, depth: nat)
    decreases laid
  {
    && depth <= MAX_DEPTH && IsKey(laid.key)
    && Blank(laid.before) && Blank(laid.gap) && Blank(laid.after) && Blank(laid.behind)
    && match laid
       case Scalar(_, _, _, _, value, close, _) => IsWritten(value) && Blank(close)
       case Section(_, _, _, _, children, _) =>
         children != [] && forall i :: 0 <= i < |children| ==> Proper(children[i], depth + 1)
  }

  function ValueText(value: Written): string {
    match value
    case Plain(text) => text
    case InQuotes(text) => "\"" + text + "\""
  }

  /** The text of a node, without what is behind it. */
  function Text(laid: Laid): string
    decreases laid, 1
  {
    "(" + (laid.before + laid.key + laid.gap + "=" + laid.after + (Body(laid) + ")"))
  }

  function Body(laid: Laid): string
    decreases laid, 0
  {
    match laid
    case Scalar(_, _, _, _, value, close, _) => ValueText(value) + close
    case Section(_, _, _, _, children, _) => Texts(children)
  }

  function Texts(children: seq<Laid>): string
    decreases children
  {
    if children == [] then "" else Text(children[0]) + children[0].behind + Texts(children[1..])
  }

  /** The tree that is written: keys in upper case. */
  function Tree(laid: Laid): Node
    decreases laid
  {
    match laid
    case Scalar(_, key, _, _, value, _, _) => Node(Upper(key), value.text, [])
    case Section(_, key, _, _, children, _) => Node(Upper(key), "", Trees(children))
  }

  function Trees(children: seq<Laid>): seq<Node>
    decreases children
  {
    if children == [] then [] else [Tree(children[0])] + Trees(children[1..])
  }

  // ----- reading it back

  lemma {:induction false} SkipsBlank(blank: string, rest: string)
    requires Blank(blank) && (rest == "" || !Space(rest[0]))
    ensures Skip(blank + rest) == rest
  {
    if blank == "" {
      assert blank + rest == rest;
    } else {
      assert (blank + rest)[1..] == blank[1..] + rest;
      SkipsBlank(blank[1..], rest);
    }
  }

  lemma {:induction false} AtomReads(atom: string, blank: string, terminator: char, rest: string, i: nat)
    requires atom != "" && i <= |atom| && Blank(blank) && !Space(terminator)
    requires forall k :: 0 <= k < |atom| ==> AtomCharacter(atom[k]) && atom[k] != terminator
    ensures AtomFrom(atom + blank + ([terminator] + rest), i, terminator) == Some((atom, [terminator] + rest))
    decreases |atom| - i
  {
    var s := atom + blank + ([terminator] + rest);
    if i < |atom| {
      assert s[i] == atom[i];
      AtomReads(atom, blank, terminator, rest, i + 1);
    } else {
      assert s[..i] == atom && s[i..] == blank + ([terminator] + rest);
      if blank == "" {
        assert s[i] == terminator;
        assert s[i..] == [terminator] + rest;
      } else {
        assert s[i] == blank[0];
        SkipsBlank(blank, [terminator] + rest);
      }
    }
  }

  lemma {:induction false} QuoteReads(text: string, rest: string, i: nat)
    requires i <= |text| && forall k :: 0 <= k < |text| ==> QuotedCharacter(text[k])
    ensures QuotedEnd(text + ("\"" + rest), i) == Some(|text|)
    decreases |text| - i
  {
    var s := text + ("\"" + rest);
    if i < |text| {
      assert s[i] == text[i];
      QuoteReads(text, rest, i + 1);
    } else {
      assert s[i] == '"';
    }
  }

  lemma QuotedReads(text: string, close: string, rest: string)
    requires 0 < |text| <= MAX_QUOTED_BYTES && (forall i :: 0 <= i < |text| ==> QuotedCharacter(text[i])) && Blank(close)
    ensures Quoted(text + ("\"" + (close + (")" + rest)))) == Some((text, ")" + rest))
  {
    var tail := close + (")" + rest);
    var s := text + ("\"" + tail);
    QuoteReads(text, tail, 0);
    assert s[..|text|] == text && s[|text| + 1..] == tail;
    SkipsBlank(close, ")" + rest);
    hide QuotedEnd, Skip, Blank;
  }

  lemma ValueReads(value: Written, close: string, rest: string)
    requires IsWritten(value) && Blank(close)
    ensures Atom(ValueText(value) + close + (")" + rest), ')') == Some((value.text, ")" + rest))
  {
    hide Quoted, AtomFrom, Blank;
    var s := ValueText(value) + close + (")" + rest);
    if value.Plain? {
      AtomReads(value.text, close, ')', rest, 0);
      assert s[0] == value.text[0];
    } else {
      QuotedReads(value.text, close, rest);
      assert s == "\"" + (value.text + ("\"" + (close + (")" + rest))));
    }
  }

  lemma KeyReads(before: string, key: string, gap: string, after: string, body: string)
    requires IsKey(key) && Blank(before) && Blank(gap) && Blank(after) && body != "" && !Space(body[0])
    ensures KeyOf(before + key + gap + "=" + after + body) == Some((key, body))
  {
    var value := "=" + (after + body);
    var s := before + key + gap + "=" + after + body;
    assert s == before + (key + gap + value);
    SkipsBlank(before, key + gap + value);
    AtomReads(key, gap, '=', after + body, 0);
    assert Skip(value) == value;
    assert value[1..] == after + body;
    SkipsBlank(after, body);
  }

  lemma TextsStart(children: seq<Laid>)
    requires children != []
    ensures Texts(children) != "" && Texts(children)[0] == '('
  {
    assert Text(children[0])[0] == '(';
    hide Text;
  }

  lemma BodyStarts(laid: Laid, depth: nat)
    requires Proper(laid, depth)
    ensures Body(laid) != "" && !Space(Body(laid)[0])
    ensures Body(laid)[0] == '(' <==> laid.Section?
  {
    if laid.Section? {
      TextsStart(laid.children);
    }
  }

  /** A node from its opening parenthesis on. */
  lemma TextSplits(laid: Laid, rest: string)
    ensures Text(laid) + rest
         == "(" + (laid.before + laid.key + laid.gap + "=" + laid.after + (Body(laid) + (")" + rest)))
  {
    hide Body;
  }

  lemma ClosedReads(node: Node, rest: string)
    ensures Closed(node, ")" + rest) == Some((node, rest))
  {
    assert (")" + rest)[1..] == rest;
  }

  lemma {:induction false} TextReads(laid: Laid, depth: nat, rest: string)
    requires Proper(laid, depth)
    ensures ParseNode(Text(laid) + rest, depth) == Some((Tree(laid), rest))
    decreases laid, 1
  {
    var body := Body(laid) + (")" + rest);
    BodyStarts(laid, depth);
    BodyReads(laid, depth, rest);
    TextSplits(laid, rest);
    hide KeyOf, Atom, Body, ParseChildren, Text, Closed;
    var inside := laid.before + laid.key + laid.gap + "=" + laid.after + body;
    assert ("(" + inside)[1..] == inside;
    KeyReads(laid.before, laid.key, laid.gap, laid.after, body);
    assert body[0] == Body(laid)[0];
    ClosedReads(Tree(laid), rest);
  }

  lemma {:induction false} BodyReads(laid: Laid, depth: nat, rest: string)
    requires Proper(laid, depth)
    ensures laid.Scalar? ==> Atom(Body(laid) + (")" + rest), ')') == Some((laid.value.text, ")" + rest))
    ensures laid.Section? ==>
      ParseChildren(Body(laid) + (")" + rest), depth + 1) == Some((Trees(laid.children), ")" + rest))
    decreases laid, 0
  {
    hide Atom, ParseChildren;
    match laid
    case Scalar(_, _, _, _, value, close, _) => ValueReads(value, close, rest);
    case Section(_, _, _, _, children, _) => ChildrenRead(children, depth + 1, rest);
  }

  lemma {:induction false} ChildrenRead(children: seq<Laid>, depth: nat, rest: string)
    requires forall i :: 0 <= i < |children| ==> Proper(children[i], depth)
    ensures ParseChildren(Texts(children) + (")" + rest), depth) == Some((Trees(children), ")" + rest))
    decreases children, 0
  {
    hide ParseNode, Text, Blank;
    var s := Texts(children) + (")" + rest);
    if children == [] {
      assert s == ")" + rest;
    } else {
      var more := Texts(children[1..]) + (")" + rest);
      assert s == Text(children[0]) + (children[0].behind + more);
      TextReads(children[0], depth, children[0].behind + more);
      TextsStart(children);
      assert !Space(more[0]) by {
        if |children| > 1 {
          TextsStart(children[1..]);
        }
      }
      SkipsBlank(children[0].behind, more);
      ChildrenRead(children[1..], depth, rest);
    }
  }

  /**
   Every way of writing a tree parses to that tree: whatever white space stands between the tokens, in whatever
   case its keys are, and with its values quoted or not.
   */
  lemma WrittenTreeParses(laid: Laid, leading: string)
    requires Proper(laid, 0) && Blank(leading) && |leading + Text(laid) + laid.behind| <= MAX_DESCRIPTOR_BYTES
    ensures ParseText(leading + Text(laid) + laid.behind) == Some(Tree(laid))
  {
    hide ParseNode, Body;
    var text := leading + Text(laid) + laid.behind;
    assert text == leading + (Text(laid) + laid.behind);
    SkipsBlank(leading, Text(laid) + laid.behind);
    TextReads(laid, 0, laid.behind);
    assert laid.behind + "" == laid.behind;
    SkipsBlank(laid.behind, "");
  }
}
