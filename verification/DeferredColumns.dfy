/**
 Reading the heavy columns of a batch only for the rows that pass the filter (oracle_query.cpp): by ROWID, five hundred
 to a statement, written in place at the rows' own positions.
 */
module DeferredColumns {
  import opened Protocol
  import opened Sequences

  const ROWIDS_PER_STATEMENT: nat := 500

  /** A row of an answer: its ROWID and its heavy value. */
  datatype Answer<V> = Answer(rowid: string, value: V)

  /** What a statement that asks for a list of ROWIDs returns. */
  type Server<!V> = seq<string> -> seq<Answer<V>>

  /** The ROWIDs of one statement after another. */
  function Groups(rowids: seq<string>): (groups: seq<seq<string>>)
    decreases |rowids|
  {
    if rowids == [] then []
    else if |rowids| <= ROWIDS_PER_STATEMENT then [rowids]
    else [rowids[..ROWIDS_PER_STATEMENT]] + Groups(rowids[ROWIDS_PER_STATEMENT..])
  }

  function Answers<V>(groups: seq<seq<string>>, server: Server<V>): seq<Answer<V>> {
    if groups == [] then [] else server(groups[0]) + Answers(groups[1..], server)
  }

  /** Everything the statements for a list of ROWIDs return. */
  function AllAnswers<V>(rowids: seq<string>, server: Server<V>): seq<Answer<V>> {
    Answers(Groups(rowids), server)
  }

  /** The ROWIDs of the rows at those positions. */
  function At(rowids: seq<string>, positions: seq<nat>): (r: seq<string>)
    requires forall k :: 0 <= k < |positions| ==> positions[k] < |rowids|
    ensures |r| == |positions| && forall k :: 0 <= k < |positions| ==> r[k] == rowids[positions[k]]
  {
    if positions == [] then [] else [rowids[positions[0]]] + At(rowids, positions[1..])
  }

  /** No answer names a ROWID that was not asked for. */
  ghost predicate OnlyAsked<V(!new)>(answers: seq<Answer<V>>, asked: seq<string>) {
    forall i :: 0 <= i < |answers| ==> answers[i].rowid in asked
  }

  /** No row is returned twice. */
  ghost predicate AnsweredOnce<V(!new)>(answers: seq<Answer<V>>) {
    forall i, j :: 0 <= i < j < |answers| ==> answers[i].rowid != answers[j].rowid
  }

  // ----- as many answers as questions

  function RowidsOf<V>(answers: seq<Answer<V>>): (r: seq<string>)
    ensures |r| == |answers| && forall i :: 0 <= i < |r| ==> r[i] == answers[i].rowid
  {
    if answers == [] then [] else [answers[0].rowid] + RowidsOf(answers[1..])
  }

  lemma {:induction false} SubsetOfSameSize(a: set<string>, b: set<string>)
    requires a <= b && |a| == |b|
    ensures a == b
    decreases |b|
  {
    if a != {} {
      var x :| x in a;
      SubsetOfSameSize(a - {x}, b - {x});
      assert a == (a - {x}) + {x} && b == (b - {x}) + {x};
    }
  }

  /** With as many answers as questions, no answer twice and none that was not asked for, every question is
      answered. */
  lemma EveryQuestionIsAnswered<V(!new)>(answers: seq<Answer<V>>, asked: seq<string>, rowid: string)
    requires OnlyAsked(answers, asked) && AnsweredOnce(answers) && Distinct(asked) && |answers| == |asked|
    requires rowid in asked
    ensures exists i :: 0 <= i < |answers| && answers[i].rowid == rowid
  {
    var names := RowidsOf(answers);
    var a, b := set v | v in names, set v | v in asked;
    DistinctCount(names);
    DistinctCount(asked);
    SubsetOfSameSize(a, b);
    assert rowid in a;
  }

  // ----- filling the vector

  /** Each ROWID has a place of its own in a vector of that length. */
  ghost predicate InPlace(rowOf: map<string, nat>, length: nat) {
    && (forall rowid :: rowid in rowOf ==> rowOf[rowid] < length)
    && forall a, b :: a in rowOf && b in rowOf && rowOf[a] == rowOf[b] ==> a == b
  }

  /** Nothing changed outside those places. */
  ghost predicate KeepsOthers<V(!new)>(before: seq<Option<V>>, after: seq<Option<V>>, rowOf: map<string, nat>) {
    && |after| == |before|
    && forall p :: 0 <= p < |before| && (forall rowid :: rowid in rowOf ==> rowOf[rowid] != p) ==> after[p] == before[p]
  }

  lemma KeepsChain<V(!new)>(a: seq<Option<V>>, b: seq<Option<V>>, c: seq<Option<V>>, rowOf: map<string, nat>)
    requires KeepsOthers(a, b, rowOf) && KeepsOthers(b, c, rowOf)
    ensures KeepsOthers(a, c, rowOf)
  {
  }

  /** Writes the answers to one statement; nothing is said of what was written when an answer was not asked for. */
  method WriteAnswers<V(!new)>(output: array<Option<V>>, answers: seq<Answer<V>>, rowOf: map<string, nat>) returns (ok: bool)
    requires InPlace(rowOf, output.Length)
    modifies output
    ensures ok <==> forall i :: 0 <= i < |answers| ==> answers[i].rowid in rowOf
    ensures KeepsOthers(old(output[..]), output[..], rowOf)
    ensures ok && AnsweredOnce(answers) ==>
      forall i :: 0 <= i < |answers| ==> output[rowOf[answers[i].rowid]] == Some(answers[i].value)
    ensures ok ==> forall rowid :: rowid in rowOf && (forall i :: 0 <= i < |answers| ==> answers[i].rowid != rowid) ==>
      output[rowOf[rowid]] == old(output[rowOf[rowid]])
  {
    for i := 0 to |answers|
      invariant forall k :: 0 <= k < i ==> answers[k].rowid in rowOf
      invariant forall p :: 0 <= p < output.Length && (forall rowid :: rowid in rowOf ==> rowOf[rowid] != p) ==>
        output[p] == old(output[p])
      invariant AnsweredOnce(answers) ==>
        forall k :: 0 <= k < i ==> output[rowOf[answers[k].rowid]] == Some(answers[k].value)
      invariant forall rowid :: rowid in rowOf && (forall k :: 0 <= k < i ==> answers[k].rowid != rowid) ==>
        output[rowOf[rowid]] == old(output[rowOf[rowid]])
    {
      if answers[i].rowid !in rowOf {
        return false;
      }
      output[rowOf[answers[i].rowid]] := Some(answers[i].value);
    }
    return true;
  }

  /** Where each ROWID asked for stands in the batch. */
  ghost predicate Locates(rowOf: map<string, nat>, asked: seq<string>, positions: seq<nat>) {
    && |asked| == |positions|
    && (forall rowid :: rowid in rowOf <==> rowid in asked)
    && forall k :: 0 <= k < |asked| ==> asked[k] in rowOf && rowOf[asked[k]] == positions[k]
  }

  method LocateRows(rowids: seq<string>, kept: seq<nat>) returns (rowOf: map<string, nat>, asked: seq<string>)
    requires forall k :: 0 <= k < |kept| ==> kept[k] < |rowids|
    requires Distinct(At(rowids, kept))
    ensures asked == At(rowids, kept) && Locates(rowOf, asked, kept)
  {
    rowOf, asked := map[], [];
    ghost var all := At(rowids, kept);
    for k := 0 to |kept|
      invariant asked == all[..k] && Locates(rowOf, asked, kept[..k])
    {
      var rowid := rowids[kept[k]];
      assert rowid == all[k];
      rowOf := rowOf[rowid := kept[k]];
      asked := asked + [rowid];
    }
    assert all[..|kept|] == all && kept[..|kept|] == kept;
  }

  /** The rows that did not pass get no value. */
  method ClearOthers<V>(output: array<Option<V>>, kept: seq<nat>)
    modifies output
    ensures forall p :: 0 <= p < output.Length ==> output[p] == if p in kept then old(output[p]) else None
  {
    for row := 0 to output.Length
      invariant forall p :: row <= p < output.Length ==> output[p] == old(output[p])
      invariant forall p :: 0 <= p < row ==> output[p] == if p in kept then old(output[p]) else None
    {
      if row !in kept {
        output[row] := None;
      }
    }
  }

  lemma FirstGroup<V>(rowids: seq<string>, server: Server<V>)
    requires rowids != []
    ensures var n := Min(|rowids|, ROWIDS_PER_STATEMENT);
      AllAnswers(rowids, server) == server(rowids[..n]) + AllAnswers(rowids[n..], server)
  {
    if |rowids| <= ROWIDS_PER_STATEMENT {
      assert rowids[..|rowids|] == rowids && rowids[|rowids|..] == [];
      assert Groups([]) == [];
      assert [rowids][1..] == [];
      assert server(rowids) + [] == server(rowids);
    } else {
      var rest := Groups(rowids[ROWIDS_PER_STATEMENT..]);
      assert ([rowids[..ROWIDS_PER_STATEMENT]] + rest)[1..] == rest;
    }
  }

  lemma NextGroup<V>(done: seq<Answer<V>>, rest: seq<string>, server: Server<V>, n: nat)
    requires rest != [] && n == Min(|rest|, ROWIDS_PER_STATEMENT)
    ensures done + AllAnswers(rest, server) == done + server(rest[..n]) + AllAnswers(rest[n..], server)
  {
    FirstGroup(rest, server);
    hide AllAnswers;
    assert done + (server(rest[..n]) + AllAnswers(rest[n..], server)) == done + server(rest[..n]) + AllAnswers(rest[n..], server);
  }

  lemma OnceInParts<V(!new)>(a: seq<Answer<V>>, b: seq<Answer<V>>)
    requires AnsweredOnce(a + b)
    ensures AnsweredOnce(a) && AnsweredOnce(b)
    ensures forall i, j :: 0 <= i < |a| && 0 <= j < |b| ==> a[i].rowid != b[j].rowid
  {
    var whole := a + b;
    assert forall i :: 0 <= i < |a| ==> whole[i] == a[i];
    assert forall j :: 0 <= j < |b| ==> whole[|a| + j] == b[j];
  }

  /** What the answers so far have written. */
  ghost predicate Written<V(!new)>(output: array<Option<V>>, answers: seq<Answer<V>>, rowOf: map<string, nat>)
    requires InPlace(rowOf, output.Length)
    reads output
  {
    forall i :: 0 <= i < |answers| && answers[i].rowid in rowOf ==>
      output[rowOf[answers[i].rowid]] == Some(answers[i].value)
  }

  ghost predicate AllIn<V(!new)>(answers: seq<Answer<V>>, rowOf: map<string, nat>) {
    forall i :: 0 <= i < |answers| ==> answers[i].rowid in rowOf
  }

  /** Writes the answers to one more statement; `once` says that no row is returned twice by any of them. */
  method TakeAnswers<V(!new)>(output: array<Option<V>>, ghost done: seq<Answer<V>>, answers: seq<Answer<V>>,
                              rowOf: map<string, nat>, ghost once: bool)
    returns (ok: bool)
    requires InPlace(rowOf, output.Length)
    requires AllIn(done, rowOf) && (once ==> AnsweredOnce(done + answers) && Written(output, done, rowOf))
    modifies output
    ensures ok <==> AllIn(answers, rowOf)
    ensures ok ==> AllIn(done + answers, rowOf) && (once ==> Written(output, done + answers, rowOf))
    ensures KeepsOthers(old(output[..]), output[..], rowOf)
  {
    if once {
      OnceInParts(done, answers);
    }
    ok := WriteAnswers(output, answers, rowOf);
    if ok && once {
      ghost var all := done + answers;
      forall i | 0 <= i < |all| && all[i].rowid in rowOf
        ensures output[rowOf[all[i].rowid]] == Some(all[i].value)
      {
        if i < |done| {
          assert all[i] == done[i];
        } else {
          assert all[i] == answers[i - |done|];
        }
      }
    }
  }

  /** One statement, for the next ROWIDs: its answers, and whether each was asked for. */
  method ReadGroup<V(!new)>(output: array<Option<V>>, ghost done: seq<Answer<V>>, rest: seq<string>,
                            rowOf: map<string, nat>, server: Server<V>, ghost once: bool)
    returns (ok: bool, answers: seq<Answer<V>>, next: seq<string>)
    requires InPlace(rowOf, output.Length) && rest != [] && AllIn(done, rowOf)
    requires once ==> AnsweredOnce(done + AllAnswers(rest, server)) && Written(output, done, rowOf)
    modifies output
    ensures |next| < |rest| && done + AllAnswers(rest, server) == done + answers + AllAnswers(next, server)
    ensures ok ==> AllIn(done + answers, rowOf) && (once ==> Written(output, done + answers, rowOf))
    ensures !ok ==> !AllIn(done + AllAnswers(rest, server), rowOf)
    ensures KeepsOthers(old(output[..]), output[..], rowOf)
  {
    hide AllAnswers, AllIn, Written, AnsweredOnce, KeepsOthers, InPlace;
    var n := Min(|rest|, ROWIDS_PER_STATEMENT);
    NextGroup(done, rest, server, n);
    answers := server(rest[..n]);
    next := rest[n..];
    if once {
      OnceInParts(done + answers, AllAnswers(next, server));
    }
    ok := TakeAnswers(output, done, answers, rowOf, once);
    if !ok {
      NotAllIn(done, answers, AllAnswers(next, server), rowOf);
    }
  }

  /** The loop over the statements. */
  method ReadGroups<V(!new)>(output: array<Option<V>>, asked: seq<string>, rowOf: map<string, nat>, server: Server<V>)
    returns (found: Option<nat>)
    requires InPlace(rowOf, output.Length)
    modifies output
    ensures found.Some? <==> AllIn(AllAnswers(asked, server), rowOf)
    ensures found.Some? ==> found.value == |AllAnswers(asked, server)|
    ensures found.Some? && AnsweredOnce(AllAnswers(asked, server)) ==> Written(output, AllAnswers(asked, server), rowOf)
    ensures KeepsOthers(old(output[..]), output[..], rowOf)
  {
    NothingDone(output, rowOf);
    hide AllAnswers, AllIn, Written, AnsweredOnce, KeepsOthers, InPlace;
    var rest := asked;
    ghost var before := output[..];
    ghost var all := AllAnswers(asked, server);
    ghost var once := AnsweredOnce(all);
    ghost var done: seq<Answer<V>> := [];
    var count := 0;
    assert done + all == all;
    while rest != []
      invariant all == done + AllAnswers(rest, server)
      invariant AllIn(done, rowOf) && count == |done|
      invariant once ==> Written(output, done, rowOf)
      invariant KeepsOthers(before, output[..], rowOf)
      decreases |rest|
    {
      ghost var now := output[..];
      var ok, answers, next := ReadGroup(output, done, rest, rowOf, server, once);
      KeepsChain(before, now, output[..], rowOf);
      if !ok {
        return None;
      }
      rest := next;
      done := done + answers;
      count := count + |answers|;
    }
    NoAnswers(server);
    assert done + [] == done;
    return Some(count);
  }

  lemma NothingDone<V(!new)>(output: array<Option<V>>, rowOf: map<string, nat>)
    requires InPlace(rowOf, output.Length)
    ensures AllIn<V>([], rowOf) && Written(output, [], rowOf) && KeepsOthers(output[..], output[..], rowOf)
  {
  }

  lemma NoAnswers<V>(server: Server<V>)
    ensures AllAnswers([], server) == []
  {
    assert Groups([]) == [];
  }

  lemma NotAllIn<V(!new)>(a: seq<Answer<V>>, b: seq<Answer<V>>, c: seq<Answer<V>>, rowOf: map<string, nat>)
    requires !AllIn(b, rowOf)
    ensures !AllIn(a + b + c, rowOf)
  {
    var i :| 0 <= i < |b| && b[i].rowid !in rowOf;
    assert (a + b + c)[|a| + i] == b[i];
  }

  /**
   Fills the heavy columns of the rows that passed. It succeeds just when the server returns as many rows as were
   asked for and none that was not; and if it then returned no row twice, every row that passed has, at its own
   position, the value returned for its ROWID, and every other row has none.
   */
  method FillDeferredColumns<V(!new)>(output: array<Option<V>>, rowids: seq<string>, kept: seq<nat>, server: Server<V>)
    returns (ok: bool)
    requires output.Length == |rowids| && forall k :: 0 <= k < |kept| ==> kept[k] < |rowids|
    requires Distinct(At(rowids, kept)) && Distinct(kept)
    modifies output
    ensures var answers := AllAnswers(At(rowids, kept), server);
      ok <==> OnlyAsked(answers, At(rowids, kept)) && |answers| == |kept|
    ensures var answers := AllAnswers(At(rowids, kept), server);
      ok && AnsweredOnce(answers) ==>
        forall k :: 0 <= k < |kept| ==> HasAnswer(output[kept[k]], rowids[kept[k]], answers)
    ensures forall p :: 0 <= p < output.Length && p !in kept ==> output[p] == None
  {
    hide AllAnswers, At;
    var rowOf, asked := LocateRows(rowids, kept);
    LocatesApart(rowOf, asked, kept);
    ClearOthers(output, kept);
    assert forall rowid :: rowid in rowOf ==> rowOf[rowid] in kept;
    var found := ReadGroups(output, asked, rowOf, server);
    ghost var answers := AllAnswers(asked, server);
    assert AllIn(answers, rowOf) <==> OnlyAsked(answers, asked);
    ok := found.Some? && found.value == |asked|;
    if ok && AnsweredOnce(answers) {
      forall k | 0 <= k < |kept| ensures HasAnswer(output[kept[k]], rowids[kept[k]], answers) {
        EveryQuestionIsAnswered(answers, asked, asked[k]);
        var i :| 0 <= i < |answers| && answers[i].rowid == asked[k];
        assert rowOf[answers[i].rowid] == kept[k];
      }
    }
  }

  ghost predicate HasAnswer<V(!new)>(cell: Option<V>, rowid: string, answers: seq<Answer<V>>) {
    exists i :: 0 <= i < |answers| && answers[i].rowid == rowid && cell == Some(answers[i].value)
  }

  lemma LocatesApart(rowOf: map<string, nat>, asked: seq<string>, positions: seq<nat>)
    requires Locates(rowOf, asked, positions) && Distinct(positions)
    ensures forall a, b :: a in rowOf && b in rowOf && rowOf[a] == rowOf[b] ==> a == b
    ensures forall rowid :: rowid in rowOf ==> rowOf[rowid] in positions
  {
    forall a, b | a in rowOf && b in rowOf && rowOf[a] == rowOf[b] ensures a == b {
      var i :| 0 <= i < |asked| && asked[i] == a;
      var j :| 0 <= j < |asked| && asked[j] == b;
      assert positions[i] == positions[j];
    }
    forall rowid | rowid in rowOf ensures rowOf[rowid] in positions {
      var i :| 0 <= i < |asked| && asked[i] == rowid;
      assert positions[i] == rowOf[rowid];
    }
  }
}
