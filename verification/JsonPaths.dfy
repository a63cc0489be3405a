/**
 JSON documents, and one simple path looked up in them by both engines: DuckDB takes each step as it is
 written, Oracle's lax mode also looks through arrays.
 */
module JsonPaths {
  import opened Protocol
  import opened Characters

  /** The text of a number: whatever strtod takes at least one character of. */
  type NumberText = text: string | StartsNumber(text) witness "0"

  datatype Json = JsonNull | JsonBool(value: bool) | JsonNumber(digits: NumberText) | JsonString(text: string)
                | JsonArray(items: seq<Json>) | JsonObject(fields: map<string, Json>)

  // ----- what strtod takes

  predicate WordCharacter(c: char) {
    Digit(c) || Letter(c) || c == '_'
  }

  /** strtod takes something of a text: spaces, a sign, then a digit, a point and a digit, or inf or nan in
      any case. */
  predicate StartsNumber(text: string) {
    if text == "" then false
    else if Space(text[0]) then StartsNumber(text[1..])
    else if text[0] in {'+', '-'} then StartsMagnitude(text[1..])
    else StartsMagnitude(text)
  }

  predicate StartsMagnitude(text: string) {
    || (|text| >= 1 && Digit(text[0]))
    || (|text| >= 2 && text[0] == '.' && Digit(text[1]))
    || (|text| >= 3 && text[0] in {'i', 'I'} && text[1] in {'n', 'N'} && text[2] in {'f', 'F'})
    || (|text| >= 3 && text[0] in {'n', 'N'} && text[1] in {'a', 'A'} && text[2] in {'n', 'N'})
  }

  /** A text that no JSON number, literal, object or array is written as. */
  predicate PlainText(text: string) {
    && text != "" && |text| <= 2000
    && text != "true" && text != "false" && text != "null"
    && text[0] != '{' && text[0] != '['
    && '\0' !in text
    && !StartsNumber(text)
  }

  // ----- paths

  datatype Step = Member(name: string) | Index(digits: string)

  /** The end of the run of characters of one kind that starts at `pos`. */
  function RunEnd(text: string, pos: nat, kind: char -> bool): (end: nat)
    requires pos <= |text|
    ensures pos <= end <= |text|
    ensures forall i :: pos <= i < end ==> kind(text[i])
    ensures end < |text| ==> !kind(text[end])
    decreases |text| - pos
  {
    if pos < |text| && kind(text[pos]) then RunEnd(text, pos + 1, kind) else pos
  }

  /** The steps of a path from `pos` on; nothing when the path is not of the simple form. */
  function StepsFrom(text: string, pos: nat): Option<seq<Step>>
    requires pos <= |text|
    decreases |text| - pos
  {
    if pos == |text| then Some([])
    else if text[pos] == '.' then
      var end := RunEnd(text, pos + 1, WordCharacter);
      if end == pos + 1 || Digit(text[pos + 1]) then None
      else
        var rest := StepsFrom(text, end);
        if rest.None? then None else Some([Member(text[pos + 1..end])] + rest.value)
    else if text[pos] == '[' then
      var end := RunEnd(text, pos + 1, Digit);
      if end == pos + 1 || end >= |text| || text[end] != ']' then None
      else
        var rest := StepsFrom(text, end + 1);
        if rest.None? then None else Some([Index(text[pos + 1..end])] + rest.value)
    else None
  }

  function SimplePath(text: string): Option<seq<Step>> {
    if |text| < 2 || text[0] != '$' then None else StepsFrom(text, 1)
  }

  method SkipRun(text: string, start: nat, kind: char -> bool) returns (end: nat)
    requires start <= |text|
    ensures end == RunEnd(text, start, kind)
  {
    end := start;
    while end < |text| && kind(text[end])
      invariant start <= end <= |text|
      invariant RunEnd(text, start, kind) == RunEnd(text, end, kind)
    {
      end := end + 1;
    }
  }

  /** The recogniser as one scan over the text. */
  method IsSimplePath(path: string) returns (simple: bool)
    ensures simple == SimplePath(path).Some?
  {
    hide RunEnd;
    if |path| < 2 || path[0] != '$' {
      return false;
    }
    var position := 1;
    while position < |path|
      invariant 1 <= position <= |path|
      invariant StepsFrom(path, 1).Some? <==> StepsFrom(path, position).Some?
    {
      var start := position + 1;
      if path[position] == '.' {
        position := SkipRun(path, start, WordCharacter);
        if position == start || Digit(path[start]) {
          return false;
        }
      } else if path[position] == '[' {
        position := SkipRun(path, start, Digit);
        if position == start || position >= |path| || path[position] != ']' {
          return false;
        }
        position := position + 1;
      } else {
        return false;
      }
    }
    return true;
  }

  function Number(digits: string): nat {
    if digits == "" then 0
    else
      var last := digits[|digits| - 1];
      10 * Number(digits[..|digits| - 1]) + (if Digit(last) then last as int - '0' as int else 0)
  }

  // ----- looking a path up

  /** DuckDB: a member of an object, an element of an array, and nothing else. */
  function Find(document: Json, path: seq<Step>): Option<Json>
    decreases |path|
  {
    if path == [] then Some(document)
    else match path[0]
      case Member(name) =>
        if document.JsonObject? && name in document.fields then Find(document.fields[name], path[1..]) else None
      case Index(digits) =>
        if document.JsonArray? && Number(digits) < |document.items| then
          Find(document.items[Number(digits)], path[1..])
        else None
  }

  /** Oracle, lax: a member step looks into the objects of an array, an index step takes anything else as an
      array of one. */
  function Matches(document: Json, path: seq<Step>): seq<Json>
    decreases |path|, 1, 0
  {
    if path == [] then [document]
    else match path[0]
      case Member(name) =>
        if document.JsonArray? then MatchesInItems(document.items, name, path[1..])
        else if document.JsonObject? && name in document.fields then Matches(document.fields[name], path[1..])
        else []
      case Index(digits) =>
        if document.JsonArray? then
          if Number(digits) < |document.items| then Matches(document.items[Number(digits)], path[1..]) else []
        else if Number(digits) == 0 then Matches(document, path[1..])
        else []
  }

  function MatchesInItems(items: seq<Json>, name: string, path: seq<Step>): seq<Json>
    decreases |path|, 2, |items|
  {
    if items == [] then []
    else
      (if items[0].JsonObject? && name in items[0].fields then Matches(items[0].fields[name], path) else [])
      + MatchesInItems(items[1..], name, path)
  }

  /** What DuckDB finds by exact steps is the one thing Oracle's lax steps find. */
  lemma {:induction false} FoundOnce(document: Json, path: seq<Step>)
    requires Find(document, path).Some?
    ensures Matches(document, path) == [Find(document, path).value]
    decreases |path|
  {
    if path != [] {
      match path[0]
      case Member(name) => FoundOnce(document.fields[name], path[1..]);
      case Index(digits) => FoundOnce(document.items[Number(digits)], path[1..]);
    }
  }

  // ----- the text of what is found

  /** Renderings outside this model: the inside of an object or array, and Oracle's way of writing a number. */
  datatype Renderings = Renderings(inside: Json -> string, oracleNumber: string -> string)

  /** json_extract_string: the text of a string, the JSON text of anything else, and NULL for null. */
  function ExtractText(found: Option<Json>, engine: Renderings): Option<string> {
    match found
    case None => None
    case Some(node) =>
      match node
      case JsonNull => None
      case JsonBool(value) => Some(if value then "true" else "false")
      case JsonNumber(digits) => Some(digits)
      case JsonString(text) => Some(text)
      case JsonArray(_) => Some("[" + engine.inside(node))
      case JsonObject(_) => Some("{" + engine.inside(node))
  }

  /** JSON_VALUE(... RETURNING VARCHAR2(4000) NULL ON ERROR): one scalar that fits, or NULL. */
  function ScalarText(found: seq<Json>, engine: Renderings): Option<string> {
    if |found| != 1 then None
    else match found[0]
      case JsonString(text) => if 0 < |text| <= 4000 then Some(text) else None
      case JsonNumber(digits) => Some(engine.oracleNumber(digits))
      case JsonBool(value) => Some(if value then "true" else "false")
      case JsonNull => None
      case JsonArray(_) => None
      case JsonObject(_) => None
  }

  /** A plain text is what DuckDB extracts only from a JSON string holding it, and Oracle then extracts it
      too. */
  lemma PlainTextAgrees(document: Json, path: seq<Step>, text: string, engine: Renderings)
    requires PlainText(text) && ExtractText(Find(document, path), engine) == Some(text)
    ensures ScalarText(Matches(document, path), engine) == Some(text)
  {
    FoundOnce(document, path);
    var node := Find(document, path).value;
    assert node.JsonString?;
  }

  /** Without the restriction to plain texts this fails: DuckDB reads the number 1.0 as it is written, Oracle
      in its own form. */
  lemma NumbersDiffer()
    ensures var engine := Renderings(_ => "", _ => "1");
      var document := JsonObject(map["a" := JsonNumber("1.0")]);
      && ExtractText(Find(document, [Member("a")]), engine) == Some("1.0")
      && ScalarText(Matches(document, [Member("a")]), engine) != Some("1.0")
  {
    var document := JsonObject(map["a" := JsonNumber("1.0")]);
    assert [Member("a")][1..] == [];
    assert Find(document, [Member("a")]) == Some(JsonNumber("1.0"));
    FoundOnce(document, [Member("a")]);
  }
}
