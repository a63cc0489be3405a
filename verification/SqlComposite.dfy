/**
 Bind order, and the PL/SQL block that a list of DML statements is joined into (sql_binds.cpp, call_builder.cpp):
 what the scanners see in the block is what they see in the statements, and the semicolons the builder wrote.
 */
module SqlComposite {
  import opened Protocol
  import Sequences
  import opened Characters
  import opened SqlLexer
  import opened SqlBinds

  // ----- binds

  /** A bind: its name and the size of its value. */
  datatype Bind = Bind(name: string, bytes: nat)

  /** The names of a list of binds as they are compared; nothing when one is invalid or stands twice. */
  function BindNames(binds: seq<Bind>): (r: Option<seq<string>>)
    ensures r.Some? ==> |r.value| == |binds|
    ensures r.Some? ==> forall i, j :: 0 <= i < j < |binds| ==> r.value[i] != r.value[j]
  {
    if binds == [] then Some([])
    else
      var before := BindNames(binds[..|binds| - 1]);
      var last := Canonical(binds[|binds| - 1].name);
      if before.None? || last.None? || last.value in before.value then None else Some(before.value + [last.value])
  }

  /** The binds of a statement are those its placeholders name. */
  ghost predicate BindsMatch(sql: string, binds: seq<Bind>) {
    && BindNames(binds).Some? && Placeholders(sql).Some?
    && forall name :: name in BindNames(binds).value <==> name in Placeholders(sql).value
  }

  /** An order of the binds: the k-th bind sent is the one the k-th placeholder names, and each is sent once. */
  ghost predicate Orders(order: seq<nat>, names: seq<string>, placeholders: seq<string>) {
    && |order| == |names| == |placeholders|
    && (forall k :: 0 <= k < |order| ==> order[k] < |names| && names[order[k]] == placeholders[k])
    && (forall j, k :: 0 <= j < k < |order| ==> order[j] != order[k])
  }

  lemma SetsMatch(sql: string, binds: seq<Bind>)
    requires BindNames(binds).Some? && Placeholders(sql).Some?
    ensures BindsMatch(sql, binds)
      <==> (set name | name in Placeholders(sql).value) == (set name | name in BindNames(binds).value)
  {
    hide Placeholders, BindNames;
    var placed, bound := set name | name in Placeholders(sql).value, set name | name in BindNames(binds).value;
    assert forall name :: name in placed <==> name in Placeholders(sql).value;
    assert forall name :: name in bound <==> name in BindNames(binds).value;
  }

  /** The place of each name. */
  method IndexNames(names: seq<string>) returns (indexes: map<string, nat>)
    requires forall i, j :: 0 <= i < j < |names| ==> names[i] != names[j]
    ensures indexes.Keys == set name | name in names
    ensures forall k :: 0 <= k < |names| ==> names[k] in indexes && indexes[names[k]] == k
  {
    indexes := map[];
    for i := 0 to |names|
      invariant indexes.Keys == set name | name in names[..i]
      invariant forall k :: 0 <= k < i ==> names[k] in indexes && indexes[names[k]] == k
    {
      indexes := indexes[names[i] := i];
      assert names[..i + 1] == names[..i] + [names[i]];
    }
    assert names[..|names|] == names;
  }

  method StatementBindOrder(sql: string, binds: seq<Bind>) returns (order: Option<seq<nat>>)
    ensures order.Some? <==> BindsMatch(sql, binds)
    ensures order.Some? ==> Orders(order.value, BindNames(binds).value, Placeholders(sql).value)
  {
    hide Placeholders, BindNames, BindsMatch;
    var names := BindNames(binds);
    var placeholders := ExtractPlaceholders(sql);
    if names.None? || placeholders.None? {
      Unmatched(sql, binds);
      return None;
    }
    SetsMatch(sql, binds);
    if (set name | name in placeholders.value) != (set name | name in names.value) {
      return None;
    }
    PlaceholdersDistinct(sql);
    Sequences.DistinctCount(names.value);
    Sequences.DistinctCount(placeholders.value);
    var indexes := IndexNames(names.value);
    var result := PlaceBinds(placeholders.value, names.value, indexes);
    return Some(result);
  }

  lemma Unmatched(sql: string, binds: seq<Bind>)
    requires BindNames(binds).None? || Placeholders(sql).None?
    ensures !BindsMatch(sql, binds)
  {
  }

  /** The index of the bind each placeholder names. */
  method PlaceBinds(placeholders: seq<string>, names: seq<string>, indexes: map<string, nat>) returns (order: seq<nat>)
    requires forall i, j :: 0 <= i < j < |placeholders| ==> placeholders[i] != placeholders[j]
    requires |placeholders| == |names|
    requires forall k :: 0 <= k < |placeholders| ==> placeholders[k] in indexes
    requires forall name :: name in indexes ==> indexes[name] < |names| && names[indexes[name]] == name
    ensures Orders(order, names, placeholders)
  {
    order := [];
    for k := 0 to |placeholders|
      invariant |order| == k
      invariant forall j :: 0 <= j < k ==> order[j] < |names| && names[order[j]] == placeholders[j]
    {
      order := order + [indexes[placeholders[k]]];
    }
  }

  lemma PlaceholdersDistinct(sql: string)
    requires Placeholders(sql).Some?
    ensures var names := Placeholders(sql).value;
      forall i, j :: 0 <= i < j < |names| ==> names[i] != names[j]
  {
  }

  // ----- the statement keyword

  /** The end of the spaces and comments at `i`; nothing when a comment is not terminated. */
  function TriviaEnd(sql: string, i: nat): (end: Option<nat>)
    requires i <= |sql|
    ensures end.Some? ==> i <= end.value <= |sql|
    decreases |sql| - i
  {
    if i == |sql| then Some(i)
    else if Space(sql[i]) then TriviaEnd(sql, i + 1)
    else if Pair(sql, i, '-', '-') then TriviaEnd(sql, LineEnd(sql, i + 2))
    else if Pair(sql, i, '/', '*') then
      var close := FindPair(sql, '*', '/', i + 2);
      if close.None? then None else TriviaEnd(sql, close.value + 2)
    else Some(i)
  }

  function LettersEnd(sql: string, i: nat): (end: nat)
    requires i <= |sql|
    ensures i <= end <= |sql|
    decreases |sql| - i
  {
    if i < |sql| && Letter(sql[i]) then LettersEnd(sql, i + 1) else i
  }

  function FirstKeyword(sql: string): Option<string> {
    if !ScannableSize(sql) then None
    else
      var begin := TriviaEnd(sql, 0);
      if begin.None? || LettersEnd(sql, begin.value) == begin.value then None
      else Some(Upper(sql[begin.value..LettersEnd(sql, begin.value)]))
  }

  /** The scan for the keyword. */
  method FindKeyword(sql: string) returns (keyword: Option<string>)
    ensures keyword == FirstKeyword(sql)
  {
    if !ScannableSize(sql) {
      return None;
    }
    var index := 0;
    while index < |sql|
      invariant index <= |sql| && TriviaEnd(sql, 0) == TriviaEnd(sql, index)
      decreases |sql| - index
    {
      if Space(sql[index]) {
        index := index + 1;
      } else if sql[index] == '-' && index + 1 < |sql| && sql[index + 1] == '-' {
        index := SkipLine(sql, index + 2);
      } else if sql[index] == '/' && index + 1 < |sql| && sql[index + 1] == '*' {
        var end := FindPair(sql, '*', '/', index + 2);
        if end.None? {
          return None;
        }
        index := end.value + 2;
      } else {
        break;
      }
    }
    var begin := index;
    assert TriviaEnd(sql, 0) == Some(begin);
    while index < |sql| && Letter(sql[index])
      invariant begin <= index <= |sql| && LettersEnd(sql, begin) == LettersEnd(sql, index)
    {
      index := index + 1;
    }
    return if begin == index then None else Some(Upper(sql[begin..index]));
  }

  predicate IsDml(sql: string) {
    FirstKeyword(sql) in {Some("INSERT"), Some("UPDATE"), Some("DELETE")}
  }

  // ----- the block

  const MAX_OPERATIONS := 16
  const MAX_BINDS := 256
  const MAX_COMPOSITE_SQL := 64 * 1024
  const MAX_PAYLOAD := 8 * 1024 * 1024
  const MAX_EXPECTED_ROWS := 1_000_000

  datatype Operation = Operation(sql: string, expectedRows: nat)

  function Digits(n: nat): string {
    (if n < 10 then "" else Digits(n / 10)) + ["0123456789"[n % 10]]
  }

  /** The check the builder puts behind a statement. */
  function Check(rows: nat, number: nat): string {
    ";" + ("\nIF SQL%ROWCOUNT <> " + Digits(rows) + " THEN RAISE_APPLICATION" + "_ERROR(-20906, ")
    + ("'" + ("DML composite operation " + Digits(number) + " affected row count mismatch") + "')")
    + ";" + " END IF" + ";" + "\n"
  }

  function Section(operation: Operation, number: nat): string {
    operation.sql + "\n" + Check(operation.expectedRows, number)
  }

  function Sections(operations: seq<Operation>, number: nat): string {
    if operations == [] then "" else Section(operations[0], number) + Sections(operations[1..], number + 1)
  }

  function Block(operations: seq<Operation>): string {
    "BEGIN\n" + Sections(operations, 1) + ("END" + ";")
  }

  function SqlBytes(operations: seq<Operation>): nat {
    if operations == [] then 0 else SqlBytes(operations[..|operations| - 1]) + |operations[|operations| - 1].sql|
  }

  function Payload(binds: seq<Bind>): nat {
    if binds == [] then 0 else Payload(binds[..|binds| - 1]) + binds[|binds| - 1].bytes
  }

  /** One statement of the block: within bounds, its placeholders bound, and one INSERT, UPDATE or DELETE. */
  ghost predicate OperationFits(operation: Operation, names: seq<string>) {
    && operation.expectedRows <= MAX_EXPECTED_ROWS
    && Placeholders(operation.sql).Some?
    && (forall name :: name in Placeholders(operation.sql).value ==> name in names)
    && NoTerminators(operation.sql)
    && IsDml(operation.sql)
  }

  /** What the builder accepts. */
  ghost predicate Accepted(operations: seq<Operation>, arguments: seq<Bind>) {
    && 0 < |operations| <= MAX_OPERATIONS && |arguments| <= MAX_BINDS
    && BindNames(arguments).Some? && Payload(arguments) <= MAX_PAYLOAD
    && SqlBytes(operations) <= MAX_COMPOSITE_SQL
    && (forall i :: 0 <= i < |operations| ==> OperationFits(operations[i], BindNames(arguments).value))
    && BindsMatch(Block(operations), arguments)
  }

  method PayloadOf(binds: seq<Bind>) returns (total: nat)
    ensures total == Payload(binds)
  {
    total := 0;
    for i := 0 to |binds|
      invariant total == Payload(binds[..i])
    {
      assert binds[..i + 1][..i] == binds[..i];
      total := total + binds[i].bytes;
    }
    assert binds[..|binds|] == binds;
  }

  lemma {:induction false} SqlBytesGrow(operations: seq<Operation>, i: nat)
    requires i < |operations|
    ensures SqlBytes(operations[..i + 1]) == SqlBytes(operations[..i]) + |operations[i].sql|
    ensures SqlBytes(operations[..i + 1]) <= SqlBytes(operations)
    decreases |operations|
  {
    assert operations[..i + 1][..i] == operations[..i];
    if i + 1 == |operations| {
      assert operations[..i + 1] == operations;
    } else {
      var fewer := operations[..|operations| - 1];
      SqlBytesGrow(fewer, i);
      assert fewer[..i + 1] == operations[..i + 1];
    }
  }

  lemma {:induction false} SectionsGrow(operations: seq<Operation>, i: nat, number: nat)
    requires i < |operations|
    ensures Sections(operations[..i + 1], number) == Sections(operations[..i], number) + Section(operations[i], number + i)
    decreases i
  {
    hide Section;
    if i == 0 {
      assert operations[..1][1..] == [] && operations[..1][0] == operations[0];
      assert Section(operations[0], number) + "" == Section(operations[0], number);
      assert "" + Section(operations[0], number) == Section(operations[0], number);
    } else {
      var rest := operations[1..];
      assert operations[..i + 1][1..] == rest[..i] && operations[..i][1..] == rest[..i - 1];
      SectionsGrow(rest, i - 1, number + 1);
      assert rest[i - 1] == operations[i];
    }
  }

  /** Whether every placeholder is one of the names the binds have. */
  method AllBound(placeholders: seq<string>, names: seq<string>) returns (bound: bool)
    ensures bound <==> forall name :: name in placeholders ==> name in names
  {
    for i := 0 to |placeholders|
      invariant forall k :: 0 <= k < i ==> placeholders[k] in names
    {
      if placeholders[i] !in names {
        return false;
      }
    }
    return true;
  }

  method OperationAllowed(operation: Operation, names: seq<string>) returns (allowed: bool)
    ensures allowed <==> OperationFits(operation, names)
  {
    hide Placeholders, NoTerminators, FirstKeyword;
    if operation.expectedRows > MAX_EXPECTED_ROWS {
      return false;
    }
    var placeholders := ExtractPlaceholders(operation.sql);
    if placeholders.None? {
      return false;
    }
    var bound := AllBound(placeholders.value, names);
    var single := RejectTerminators(operation.sql);
    var keyword := FindKeyword(operation.sql);
    return bound && single && keyword in {Some("INSERT"), Some("UPDATE"), Some("DELETE")};
  }

  /** The loop over the statements. */
  method BuildSections(operations: seq<Operation>, names: seq<string>) returns (r: Result<string>)
    ensures r.Ok? <==> SqlBytes(operations) <= MAX_COMPOSITE_SQL
                       && forall i :: 0 <= i < |operations| ==> OperationFits(operations[i], names)
    ensures r.Ok? ==> r.value == Sections(operations, 1)
  {
    hide OperationFits, Section;
    var sections := "";
    var bytes := 0;
    for i := 0 to |operations|
      invariant sections == Sections(operations[..i], 1)
      invariant bytes == SqlBytes(operations[..i]) && bytes <= MAX_COMPOSITE_SQL
      invariant forall k :: 0 <= k < i ==> OperationFits(operations[k], names)
    {
      SqlBytesGrow(operations, i);
      SectionsGrow(operations, i, 1);
      bytes := bytes + |operations[i].sql|;
      if bytes > MAX_COMPOSITE_SQL {
        return Err(LimitExceeded);
      }
      var allowed := OperationAllowed(operations[i], names);
      if !allowed {
        return Err(Malformed);
      }
      sections := sections + Section(operations[i], i + 1);
    }
    assert operations[..|operations|] == operations;
    return Ok(sections);
  }

  /** The builder: the statements in order, each with its check, and the whole validated once more. */
  method BuildComposite(operations: seq<Operation>, arguments: seq<Bind>) returns (r: Result<string>)
    ensures r.Ok? <==> Accepted(operations, arguments)
    ensures r.Ok? ==> r.value == Block(operations)
    ensures operations == [] ==> r == Err(Malformed)
    ensures |operations| > MAX_OPERATIONS || (operations != [] && |arguments| > MAX_BINDS) ==> r == Err(LimitExceeded)
  {
    hide BindNames, OperationFits, Sections, BindsMatch, SqlBytes, Payload;
    if operations == [] {
      return Err(Malformed);
    }
    if |operations| > MAX_OPERATIONS || |arguments| > MAX_BINDS {
      return Err(LimitExceeded);
    }
    var names := BindNames(arguments);
    if names.None? {
      return Err(Malformed);
    }
    var payload := PayloadOf(arguments);
    if payload > MAX_PAYLOAD {
      return Err(LimitExceeded);
    }
    var sections :- BuildSections(operations, names.value);
    var block := "BEGIN\n" + sections + ("END" + ";");
    var order := StatementBindOrder(block, arguments);
    if order.None? {
      return Err(Malformed);
    }
    return Ok(block);
  }
}
