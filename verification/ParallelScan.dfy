/**
 Threads that take chunks of a table from a shared counter and read each through a cursor of their own
 (oracle_query.cpp, oracle_parallel.cpp), as the steps of a machine: over every interleaving, each row that
 passes the filter is handed over exactly once.
 */
module ParallelScan {
  import opened Arithmetic
  import opened Protocol
  import opened Sequences
  import opened RowidRanges

  const VECTOR_SIZE: nat := 2048

  /** A row: where it is stored, the number it holds in the column a scan is split by, if any, and the rest of it. */
  datatype Row = Row(rowid: int, key: Option<real>, value: int)

  type Filter = Row -> bool

  lemma {:induction false} PassingJoins(a: seq<Row>, b: seq<Row>, filter: Filter)
    ensures Passing(a + b, filter) == Passing(a, filter) + Passing(b, filter)
  {
    if a == [] {
      assert a + b == b;
      assert [] + Passing(b, filter) == Passing(b, filter);
    } else {
      var joined := a + b;
      var head := if filter(a[0]) then [a[0]] else [];
      PassingJoins(a[1..], b, filter);
      assert joined[0] == a[0] && joined[1..] == a[1..] + b;
      assert Passing(joined, filter) == head + Passing(a[1..] + b, filter);
      assert Passing(a, filter) == head + Passing(a[1..], filter);
      hide Passing;
      assert head + (Passing(a[1..], filter) + Passing(b, filter)) == head + Passing(a[1..], filter) + Passing(b, filter);
    }
  }

  // ----- what one fetch makes of a batch

  /** What a fetch returns: rows, and whether the cursor has no more. */
  datatype Batch = Batch(rows: seq<Row>, exhausted: bool)

  /** What the scan does with a batch: hand rows over, which ends the scan when there are none, or go on. */
  datatype Action = HandOver(rows: seq<Row>) | GoOn

  /** One turn of the scan loop after a fetch. `own` is set when the thread has a cursor of its own. */
  function AfterFetch(own: bool, filtered: bool, filter: Filter, batch: Batch): Action {
    var kept := if filtered && batch.rows != [] then Passing(batch.rows, filter) else batch.rows;
    if filtered && batch.rows != [] && kept == [] && !batch.exhausted then GoOn
    else if own && kept == [] then GoOn
    else HandOver(kept)
  }

  /** A thread with a cursor of its own never hands over nothing, which would be taken for the end; and what it
      hands over is what passes the filter. */
  lemma OwnCursorNeverEndsEarly(filtered: bool, filter: Filter, batch: Batch)
    ensures var action := AfterFetch(true, filtered, filter, batch);
      var passing := if filtered then Passing(batch.rows, filter) else batch.rows;
      action == if passing == [] then GoOn else HandOver(passing)
  {
  }

  // ----- the machine

  datatype Thread = Idle | Reading(chunk: nat, taken: nat) | Done

  /** The shared counter, the threads, what has been handed over, and how much of each chunk has been read. */
  datatype State = State(next: nat, threads: seq<Thread>, handed: multiset<Row>, read: seq<nat>)

  datatype Scan = Scan(chunks: seq<seq<Row>>, filter: Filter)

  ghost predicate Init(s: State, scan: Scan) {
    && s.next == 0 && s.handed == multiset{}
    && |s.threads| > 0 && (forall t :: 0 <= t < |s.threads| ==> s.threads[t] == Idle)
    && |s.read| == |scan.chunks| && (forall c :: 0 <= c < |s.read| ==> s.read[c] == 0)
  }

  /** A thread without a cursor takes the next chunk, or is done when there is none. */
  ghost predicate Take(s: State, t: State, scan: Scan, thread: nat) {
    && thread < |s.threads| && s.threads[thread].Idle?
    && t == s.(
      next := s.next + 1,
      threads := s.threads[thread := if s.next < |scan.chunks| then Reading(s.next, 0) else Done])
  }

  /** A thread fetches a batch of any size from its cursor, applies the filter, and hands over what passes; an
      exhausted cursor is closed. */
  ghost predicate Fetch(s: State, t: State, scan: Scan, thread: nat, size: nat, exhausted: bool) {
    && thread < |s.threads| && s.threads[thread].Reading?
    && var at := s.threads[thread];
    && at.chunk < |scan.chunks| && at.chunk < |s.read|
    && size <= VECTOR_SIZE && at.taken + size <= |scan.chunks[at.chunk]|
    && (exhausted ==> at.taken + size == |scan.chunks[at.chunk]|)
    && var batch := Batch(scan.chunks[at.chunk][at.taken..at.taken + size], exhausted);
       var action := AfterFetch(true, true, scan.filter, batch);
    && t == s.(
      threads := s.threads[thread := if exhausted then Idle else Reading(at.chunk, at.taken + size)],
      handed := s.handed + (if action.HandOver? then multiset(action.rows) else multiset{}),
      read := s.read[at.chunk := at.taken + size])
  }

  ghost predicate Next(s: State, t: State, scan: Scan) {
    || (exists thread: nat :: Take(s, t, scan, thread))
    || (exists thread: nat, size: nat, exhausted: bool :: Fetch(s, t, scan, thread, size, exhausted))
  }

  /** A run of the machine. */
  ghost predicate Run(states: seq<State>, scan: Scan) {
    && states != [] && Init(states[0], scan)
    && forall i :: 0 <= i < |states| - 1 ==> Next(states[i], states[i + 1], scan)
  }

  // ----- the invariant

  /** What passes the filter of what has been read of the first `n` chunks. */
  function PassedOf(read: seq<nat>, n: nat, scan: Scan): multiset<Row>
    requires n <= |read| == |scan.chunks| && forall c :: 0 <= c < |read| ==> read[c] <= |scan.chunks[c]|
  {
    if n == 0 then multiset{}
    else PassedOf(read, n - 1, scan) + multiset(Passing(scan.chunks[n - 1][..read[n - 1]], scan.filter))
  }

  ghost predicate ReadIsBounded(s: State, scan: Scan) {
    |s.read| == |scan.chunks| && forall c :: 0 <= c < |s.read| ==> s.read[c] <= |scan.chunks[c]|
  }

  /** Each thread is where its chunk has been read to, and no chunk has two readers. */
  ghost predicate ReadersApart(s: State, scan: Scan) {
    && (forall t :: 0 <= t < |s.threads| && s.threads[t].Reading? ==>
          && s.threads[t].chunk < s.next && s.threads[t].chunk < |s.read|
          && s.threads[t].taken == s.read[s.threads[t].chunk])
    && forall t, u :: 0 <= t < u < |s.threads| && s.threads[t].Reading? && s.threads[u].Reading? ==>
         s.threads[t].chunk != s.threads[u].chunk
  }

  ghost predicate HasReader(s: State, chunk: nat) {
    exists t :: 0 <= t < |s.threads| && s.threads[t].Reading? && s.threads[t].chunk == chunk
  }

  /** A chunk not taken is unread, and one taken is being read or has been read to its end. */
  ghost predicate ChunksInOrder(s: State, scan: Scan)
    requires ReadIsBounded(s, scan)
  {
    && (forall c :: s.next <= c < |s.read| ==> s.read[c] == 0)
    && (forall c :: 0 <= c < s.next && c < |s.read| ==> HasReader(s, c) || s.read[c] == |scan.chunks[c]|)
  }

  ghost predicate Invariant(s: State, scan: Scan) {
    && ReadIsBounded(s, scan) && ReadersApart(s, scan) && ChunksInOrder(s, scan)
    && s.handed == PassedOf(s.read, |s.read|, scan)
    && (forall t :: 0 <= t < |s.threads| && s.threads[t].Done? ==> s.next > |scan.chunks|)
  }

  lemma {:induction false} NothingPassed(read: seq<nat>, n: nat, scan: Scan)
    requires n <= |read| == |scan.chunks| && forall c :: 0 <= c < |read| ==> read[c] == 0
    ensures PassedOf(read, n, scan) == multiset{}
  {
    if n > 0 {
      NothingPassed(read, n - 1, scan);
      assert scan.chunks[n - 1][..0] == [];
    }
  }

  lemma InitKeeps(s: State, scan: Scan)
    requires Init(s, scan)
    ensures Invariant(s, scan)
  {
    NothingPassed(s.read, |s.read|, scan);
  }

  lemma TakeKeeps(s: State, t: State, scan: Scan, thread: nat)
    requires Invariant(s, scan) && Take(s, t, scan, thread)
    ensures Invariant(t, scan)
  {
    forall c | 0 <= c < t.next && c < |t.read|
      ensures HasReader(t, c) || t.read[c] == |scan.chunks[c]|
    {
      if c == s.next {
        assert t.threads[thread].Reading? && t.threads[thread].chunk == c;
      } else if HasReader(s, c) {
        var u :| 0 <= u < |s.threads| && s.threads[u].Reading? && s.threads[u].chunk == c;
        assert t.threads[u] == s.threads[u];
      }
    }
  }

  /** Reading further in one chunk adds just what passes of the rows read. */
  lemma {:induction false} ReadingFurther(read: seq<nat>, chunk: nat, to: nat, n: nat, scan: Scan)
    requires n <= |read| == |scan.chunks| && (forall c :: 0 <= c < |read| ==> read[c] <= |scan.chunks[c]|)
    requires chunk < |read| && read[chunk] <= to <= |scan.chunks[chunk]|
    ensures PassedOf(read[chunk := to], n, scan)
         == PassedOf(read, n, scan)
            + (if chunk < n then multiset(Passing(scan.chunks[chunk][read[chunk]..to], scan.filter)) else multiset{})
  {
    hide Passing;
    if n > 0 {
      ReadingFurther(read, chunk, to, n - 1, scan);
      if chunk == n - 1 {
        FrontGrows(scan.chunks[chunk], read[chunk], to, scan.filter);
      }
    }
  }

  lemma FrontGrows(rows: seq<Row>, from: nat, to: nat, filter: Filter)
    requires from <= to <= |rows|
    ensures multiset(Passing(rows[..to], filter))
         == multiset(Passing(rows[..from], filter)) + multiset(Passing(rows[from..to], filter))
  {
    hide Passing;
    assert rows[..to] == rows[..from] + rows[from..to];
    PassingJoins(rows[..from], rows[from..to], filter);
  }

  lemma FetchKeepsReaders(s: State, t: State, scan: Scan, thread: nat, size: nat, exhausted: bool)
    requires Invariant(s, scan) && Fetch(s, t, scan, thread, size, exhausted)
    ensures ReadIsBounded(t, scan) && ReadersApart(t, scan) && ChunksInOrder(t, scan)
    ensures forall u :: 0 <= u < |t.threads| && t.threads[u].Done? ==> t.next > |scan.chunks|
  {
    hide Passing, PassedOf, AfterFetch;
    var chunk := s.threads[thread].chunk;
    forall c | 0 <= c < t.next && c < |t.read|
      ensures HasReader(t, c) || t.read[c] == |scan.chunks[c]|
    {
      if c == chunk {
        assert !exhausted ==> t.threads[thread].Reading? && t.threads[thread].chunk == c;
      } else if HasReader(s, c) {
        var u :| 0 <= u < |s.threads| && s.threads[u].Reading? && s.threads[u].chunk == c;
        assert t.threads[u] == s.threads[u];
      }
    }
  }

  lemma HandedIsPassing(filter: Filter, batch: Batch)
    ensures var action := AfterFetch(true, true, filter, batch);
      (if action.HandOver? then multiset(action.rows) else multiset{}) == multiset(Passing(batch.rows, filter))
  {
    OwnCursorNeverEndsEarly(true, filter, batch);
    hide Passing;
  }

  lemma FetchHandsOver(s: State, t: State, scan: Scan, thread: nat, size: nat, exhausted: bool)
    requires Invariant(s, scan) && Fetch(s, t, scan, thread, size, exhausted)
    ensures ReadIsBounded(t, scan) && t.handed == PassedOf(t.read, |t.read|, scan)
  {
    hide Passing, PassedOf, AfterFetch;
    var at := s.threads[thread];
    HandedIsPassing(scan.filter, Batch(scan.chunks[at.chunk][at.taken..at.taken + size], exhausted));
    ReadingFurther(s.read, at.chunk, at.taken + size, |s.read|, scan);
  }

  lemma NextKeeps(s: State, t: State, scan: Scan)
    requires Invariant(s, scan) && Next(s, t, scan)
    ensures Invariant(t, scan) && |t.threads| == |s.threads|
  {
    if thread: nat :| Take(s, t, scan, thread) {
      TakeKeeps(s, t, scan, thread);
    } else {
      var thread: nat, size: nat, exhausted: bool :| Fetch(s, t, scan, thread, size, exhausted);
      FetchKeepsReaders(s, t, scan, thread, size, exhausted);
      FetchHandsOver(s, t, scan, thread, size, exhausted);
    }
  }

  lemma {:induction false} RunKeeps(states: seq<State>, scan: Scan, i: nat)
    requires Run(states, scan) && i < |states|
    ensures Invariant(states[i], scan) && |states[i].threads| == |states[0].threads|
  {
    hide Invariant, Next, Init;
    if i == 0 {
      InitKeeps(states[0], scan);
    } else {
      RunKeeps(states, scan, i - 1);
      assert Next(states[i - 1], states[i - 1 + 1], scan);
      NextKeeps(states[i - 1], states[i], scan);
    }
  }

  // ----- what a run hands over

  function Joined(chunks: seq<seq<Row>>): seq<Row> {
    if chunks == [] then [] else Joined(chunks[..|chunks| - 1]) + chunks[|chunks| - 1]
  }

  ghost predicate AllDone(s: State) {
    forall t :: 0 <= t < |s.threads| ==> s.threads[t].Done?
  }

  lemma {:induction false} AllPassed(read: seq<nat>, n: nat, scan: Scan)
    requires n <= |read| == |scan.chunks| && forall c :: 0 <= c < |read| ==> read[c] == |scan.chunks[c]|
    ensures PassedOf(read, n, scan) == multiset(Passing(Joined(scan.chunks[..n]), scan.filter))
  {
    hide Passing;
    if n == 0 {
      assert Joined(scan.chunks[..0]) == [];
      PassingNothing(scan.filter);
    } else {
      AllPassed(read, n - 1, scan);
      assert scan.chunks[..n][..n - 1] == scan.chunks[..n - 1];
      PassingJoins(Joined(scan.chunks[..n - 1]), scan.chunks[n - 1], scan.filter);
      assert scan.chunks[n - 1][..read[n - 1]] == scan.chunks[n - 1];
    }
  }

  lemma PassingNothing(filter: Filter)
    ensures Passing([], filter) == []
  {
  }

  lemma DoneMeansAllRead(s: State, scan: Scan)
    requires Invariant(s, scan) && AllDone(s) && |s.threads| > 0
    ensures s.handed == multiset(Passing(Joined(scan.chunks), scan.filter))
  {
    hide PassedOf, Passing, Joined;
    assert s.threads[0].Done?;
    forall c | 0 <= c < |s.read| ensures s.read[c] == |scan.chunks[c]| {
      assert !HasReader(s, c);
    }
    AllPassed(s.read, |s.read|, scan);
    assert scan.chunks[..|s.read|] == scan.chunks;
  }

  lemma {:induction false} PassedIsPart(read: seq<nat>, n: nat, scan: Scan)
    requires n <= |read| == |scan.chunks| && forall c :: 0 <= c < |read| ==> read[c] <= |scan.chunks[c]|
    ensures PassedOf(read, n, scan) <= multiset(Passing(Joined(scan.chunks[..n]), scan.filter))
  {
    hide Passing;
    if n > 0 {
      PassedIsPart(read, n - 1, scan);
      assert scan.chunks[..n][..n - 1] == scan.chunks[..n - 1];
      PassingJoins(Joined(scan.chunks[..n - 1]), scan.chunks[n - 1], scan.filter);
      var rows, k := scan.chunks[n - 1], read[n - 1];
      assert rows == rows[..k] + rows[k..];
      PassingJoins(rows[..k], rows[k..], scan.filter);
    }
  }

  // ----- what the chunks hold

  /** Each chunk holds the rows of the table its statement selects. */
  ghost predicate Selects(chunks: seq<seq<Row>>, selected: seq<Filter>, table: seq<Row>) {
    && |chunks| == |selected|
    && forall c :: 0 <= c < |chunks| ==> multiset(chunks[c]) == multiset(Passing(table, selected[c]))
  }

  /** How many of the chunks a row is in. */
  function Readers(selected: seq<Filter>, row: Row): nat {
    if selected == [] then 0
    else Readers(selected[..|selected| - 1], row) + (if selected[|selected| - 1](row) then 1 else 0)
  }

  lemma {:induction false} NoReaders(selected: seq<Filter>, row: Row)
    requires forall i :: 0 <= i < |selected| ==> !selected[i](row)
    ensures Readers(selected, row) == 0
  {
    if selected != [] {
      NoReaders(selected[..|selected| - 1], row);
    }
  }

  lemma {:induction false} OneReader(selected: seq<Filter>, row: Row, index: nat)
    requires index < |selected| && selected[index](row)
    requires forall i :: 0 <= i < |selected| && selected[i](row) ==> i == index
    ensures Readers(selected, row) == 1
  {
    var fewer := selected[..|selected| - 1];
    if index == |selected| - 1 {
      NoReaders(fewer, row);
    } else {
      OneReader(fewer, row, index);
    }
  }

  lemma {:induction false} CountPassing(rows: seq<Row>, filter: Filter, row: Row)
    ensures multiset(Passing(rows, filter))[row] == if filter(row) then multiset(rows)[row] else 0
  {
    if rows != [] {
      CountPassing(rows[1..], filter, row);
      CountFirst(rows, filter, row);
    }
  }

  lemma CountFirst(rows: seq<Row>, filter: Filter, row: Row)
    requires rows != []
    ensures multiset(rows)[row] == multiset(rows[1..])[row] + (if rows[0] == row then 1 else 0)
    ensures multiset(Passing(rows, filter))[row]
         == multiset(Passing(rows[1..], filter))[row] + (if filter(rows[0]) && rows[0] == row then 1 else 0)
  {
    var rest := Passing(rows[1..], filter);
    assert rows == [rows[0]] + rows[1..];
    assert Passing(rows, filter) == if filter(rows[0]) then [rows[0]] + rest else rest;
  }

  /** A row is in the chunks as often as in the table, once for each chunk that selects it. */
  lemma {:induction false} CountInChunks(chunks: seq<seq<Row>>, selected: seq<Filter>, table: seq<Row>, row: Row)
    requires Selects(chunks, selected, table)
    ensures multiset(Joined(chunks))[row] == Readers(selected, row) * multiset(table)[row]
  {
    hide Passing;
    if chunks != [] {
      var n := |chunks| - 1;
      CountInChunks(chunks[..n], selected[..n], table, row);
      CountPassing(table, selected[n], row);
      hide Joined, Readers;
      assert Joined(chunks) == Joined(chunks[..n]) + chunks[n] by { JoinedStep(chunks); }
      ReadersStep(selected, row);
      MulSuccessor(Readers(selected[..n], row), multiset(table)[row]);
    }
  }

  lemma JoinedStep(chunks: seq<seq<Row>>)
    requires chunks != []
    ensures Joined(chunks) == Joined(chunks[..|chunks| - 1]) + chunks[|chunks| - 1]
  {
  }

  lemma ReadersStep(selected: seq<Filter>, row: Row)
    requires selected != []
    ensures Readers(selected, row)
         == Readers(selected[..|selected| - 1], row) + (if selected[|selected| - 1](row) then 1 else 0)
  {
  }

  /** What a run has handed over at any moment is part of what passes of the chunks, and all of it at the end. */
  lemma HandedOfChunks(states: seq<State>, scan: Scan, i: nat)
    requires Run(states, scan) && i < |states|
    ensures states[i].handed <= multiset(Passing(Joined(scan.chunks), scan.filter))
    ensures AllDone(states[i]) ==> states[i].handed == multiset(Passing(Joined(scan.chunks), scan.filter))
  {
    hide Passing, Joined, PassedOf, Next;
    RunKeeps(states, scan, i);
    PassedIsPart(states[i].read, |scan.chunks|, scan);
    assert scan.chunks[..|scan.chunks|] == scan.chunks;
    if AllDone(states[i]) {
      DoneMeansAllRead(states[i], scan);
    }
  }

  // ----- chunks that are ROWID ranges

  function InRange(range: Range): Filter {
    (row: Row) => range.Reads(row.rowid)
  }

  function InRanges(ranges: seq<Range>): (selected: seq<Filter>)
    ensures |selected| == |ranges|
    ensures forall i :: 0 <= i < |ranges| ==> selected[i] == InRange(ranges[i])
  {
    if ranges == [] then [] else [InRange(ranges[0])] + InRanges(ranges[1..])
  }

  /** The rows of a table that a list of ROWID ranges cuts up: each chunk holds those its range reads. */
  ghost predicate CutsUp(chunks: seq<seq<Row>>, ranges: seq<Range>, table: seq<Row>) {
    Partition(ranges) && Selects(chunks, InRanges(ranges), table)
  }

  /** The chunks of a table cut into ROWID ranges are the table. */
  lemma ChunksAreTheTable(chunks: seq<seq<Row>>, ranges: seq<Range>, table: seq<Row>)
    requires CutsUp(chunks, ranges, table)
    ensures multiset(Joined(chunks)) == multiset(table)
  {
    hide Passing, Joined, Readers, Selects;
    forall row: Row ensures multiset(Joined(chunks))[row] == multiset(table)[row] {
      CountInChunks(chunks, InRanges(ranges), table, row);
      assert ReadOnce(ranges, row.rowid);
      var index: nat :| index < |ranges| && ranges[index].Reads(row.rowid)
        && forall j :: 0 <= j < |ranges| && ranges[j].Reads(row.rowid) ==> j == index;
      OneReader(InRanges(ranges), row, index);
    }
  }

  /**
   Exactly once. However the threads interleave, whatever sizes the batches come in, at every moment of a run
   the rows handed over are among those of the table that pass the filter, each at most as often as it stands
   there; and once every thread has reported the end they are exactly those.
   */
  lemma RowsHandedOverOnce(states: seq<State>, scan: Scan, ranges: seq<Range>, table: seq<Row>)
    requires Run(states, scan) && CutsUp(scan.chunks, ranges, table)
    ensures forall i :: 0 <= i < |states| ==> states[i].handed <= multiset(Passing(table, scan.filter))
    ensures AllDone(states[|states| - 1]) ==>
      states[|states| - 1].handed == multiset(Passing(table, scan.filter))
  {
    hide Passing, Joined, Run, CutsUp, AllDone;
    ChunksAreTheTable(scan.chunks, ranges, table);
    SameBagPasses(Joined(scan.chunks), table, scan.filter);
    forall i | 0 <= i < |states| ensures states[i].handed <= multiset(Passing(table, scan.filter)) {
      HandedOfChunks(states, scan, i);
    }
    RunIsNotEmpty(states, scan);
    HandedOfChunks(states, scan, |states| - 1);
  }

  lemma RunIsNotEmpty(states: seq<State>, scan: Scan)
    requires Run(states, scan)
    ensures states != [] && |states[0].threads| > 0
  {
  }

  lemma SameBagPasses(a: seq<Row>, b: seq<Row>, filter: Filter)
    requires multiset(a) == multiset(b)
    ensures multiset(Passing(a, filter)) == multiset(Passing(b, filter))
  {
    forall row: Row ensures multiset(Passing(a, filter))[row] == multiset(Passing(b, filter))[row] {
      CountPassing(a, filter, row);
      CountPassing(b, filter, row);
    }
  }

  // ----- one stream

  /** The batches of one cursor, the last of them exhausted. */
  ghost predicate Stream(batches: seq<Batch>) {
    && batches != [] && batches[|batches| - 1].exhausted
    && forall i :: 0 <= i < |batches| - 1 ==> !batches[i].exhausted
  }

  /** What the scan without a cursor per thread hands over before it is taken to be at its end. */
  function Delivered(batches: seq<Batch>, filtered: bool, filter: Filter): seq<Row> {
    if batches == [] then []
    else
      var action := AfterFetch(false, filtered, filter, batches[0]);
      if action.GoOn? then Delivered(batches[1..], filtered, filter)
      else if action.rows == [] then []
      else action.rows + Delivered(batches[1..], filtered, filter)
  }

  function Wanted(batches: seq<Batch>, filtered: bool, filter: Filter): seq<Row> {
    if batches == [] then []
    else (if filtered then Passing(batches[0].rows, filter) else batches[0].rows) + Wanted(batches[1..], filtered, filter)
  }

  /** No batch is empty before the one that ends the cursor, or nothing is wanted behind it. */
  ghost predicate NoEarlyEmptyBatch(batches: seq<Batch>, filtered: bool, filter: Filter) {
    forall i :: 0 <= i < |batches| && batches[i].rows == [] ==> Wanted(batches[i..], filtered, filter) == []
  }

  lemma NoEarlyStep(batches: seq<Batch>, filtered: bool, filter: Filter)
    requires batches != []
    ensures NoEarlyEmptyBatch(batches, filtered, filter)
      <==> (batches[0].rows == [] ==> Wanted(batches, filtered, filter) == [])
           && NoEarlyEmptyBatch(batches[1..], filtered, filter)
  {
    hide Wanted;
    var rest := batches[1..];
    assert batches[0..] == batches;
    assert forall i :: 0 < i < |batches| ==> batches[i..] == rest[i - 1..] && batches[i] == rest[i - 1];
    assert forall i :: 0 <= i < |rest| ==> rest[i..] == batches[i + 1..] && rest[i] == batches[i + 1];
  }

  lemma {:induction false} NothingWanted(batches: seq<Batch>, filtered: bool, filter: Filter)
    requires Wanted(batches, filtered, filter) == []
    ensures NoEarlyEmptyBatch(batches, filtered, filter)
    decreases |batches|
  {
    hide NoEarlyEmptyBatch, Passing;
    if batches == [] {
      NoBatches(filtered, filter);
    } else {
      NothingWanted(batches[1..], filtered, filter);
      NoEarlyStep(batches, filtered, filter);
    }
  }

  lemma NoBatches(filtered: bool, filter: Filter)
    ensures NoEarlyEmptyBatch([], filtered, filter)
    ensures Wanted([], filtered, filter) == [] && Delivered([], filtered, filter) == []
  {
  }

  lemma SameFront(front: seq<Row>, a: seq<Row>, b: seq<Row>)
    ensures front + a == front + b <==> a == b
  {
    if front + a == front + b {
      assert (front + a)[|front|..] == a && (front + b)[|front|..] == b;
    }
  }

  lemma DeliveredStep(batches: seq<Batch>, filtered: bool, filter: Filter)
    requires batches != []
    ensures var kept := if filtered then Passing(batches[0].rows, filter) else batches[0].rows;
      && Wanted(batches, filtered, filter) == kept + Wanted(batches[1..], filtered, filter)
      && (kept != [] ==> Delivered(batches, filtered, filter) == kept + Delivered(batches[1..], filtered, filter))
      && (kept == [] && (batches[0].rows == [] || batches[0].exhausted) ==> Delivered(batches, filtered, filter) == [])
      && (kept == [] && batches[0].rows != [] && !batches[0].exhausted ==>
            Delivered(batches, filtered, filter) == Delivered(batches[1..], filtered, filter))
  {
    PassingNothing(filter);
    hide Passing;
  }

  /** One stream hands over every row wanted, in order, just when no empty batch comes before one of them: that
      scan takes an empty batch for the end even where the cursor is not exhausted. */
  lemma {:induction false} StreamDeliversAll(batches: seq<Batch>, filtered: bool, filter: Filter)
    requires Stream(batches)
    ensures Delivered(batches, filtered, filter) == Wanted(batches, filtered, filter)
      <==> NoEarlyEmptyBatch(batches, filtered, filter)
    decreases |batches|
  {
    var first, rest := batches[0], batches[1..];
    hide Passing, NoEarlyEmptyBatch, Delivered, Wanted;
    NoEarlyStep(batches, filtered, filter);
    DeliveredStep(batches, filtered, filter);
    PassingNothing(filter);
    if |batches| == 1 {
      assert rest == [];
      NoBatches(filtered, filter);
    } else {
      assert Stream(rest);
      hide Stream;
      StreamDeliversAll(rest, filtered, filter);
      SameFront(if filtered then Passing(first.rows, filter) else first.rows,
                Delivered(rest, filtered, filter), Wanted(rest, filtered, filter));
      if Wanted(batches, filtered, filter) == [] {
        NothingWanted(batches, filtered, filter);
      }
    }
  }

  /** One call of the scan function on one stream: it fetches until a batch leaves rows to hand over or the
      cursor has no more. */
  method NextOutput(batches: seq<Batch>, at: nat, filtered: bool, filter: Filter)
    returns (output: seq<Row>, next: nat)
    requires at <= |batches| && (forall i :: 0 <= i < |batches| ==> batches[i].exhausted <==> i == |batches| - 1)
    ensures at <= next <= |batches| && (output != [] ==> at < next)
    ensures Delivered(batches[at..], filtered, filter)
         == if output == [] then [] else output + Delivered(batches[next..], filtered, filter)
  {
    hide Passing, Wanted;
    next := at;
    while next < |batches|
      invariant at <= next <= |batches|
      invariant Delivered(batches[at..], filtered, filter) == Delivered(batches[next..], filtered, filter)
    {
      var batch := batches[next];
      assert batches[next..][1..] == batches[next + 1..];
      DeliveredStep(batches[next..], filtered, filter);
      next := next + 1;
      output := batch.rows;
      if filtered && batch.rows != [] {
        output := KeepPassing(batch.rows, filter);
        if output == [] && !batch.exhausted {
          continue;
        }
      }
      PassingNothing(filter);
      return;
    }
    output := [];
  }

  method KeepPassing(rows: seq<Row>, filter: Filter) returns (kept: seq<Row>)
    ensures kept == Passing(rows, filter)
  {
    kept := [];
    for i := 0 to |rows|
      invariant Passing(rows, filter) == kept + Passing(rows[i..], filter)
    {
      assert rows[i..][1..] == rows[i + 1..];
      if filter(rows[i]) {
        kept := kept + [rows[i]];
      }
    }
  }

  /** The engine calls the scan until it is handed nothing. */
  method ReadStream(batches: seq<Batch>, filtered: bool, filter: Filter) returns (handed: seq<Row>)
    requires forall i :: 0 <= i < |batches| ==> batches[i].exhausted <==> i == |batches| - 1
    ensures handed == Delivered(batches, filtered, filter)
  {
    hide Delivered;
    handed := [];
    var at := 0;
    assert batches[0..] == batches;
    while true
      invariant at <= |batches|
      invariant Delivered(batches, filtered, filter) == handed + Delivered(batches[at..], filtered, filter)
      decreases |batches| - at
    {
      var output, next := NextOutput(batches, at, filtered, filter);
      if output == [] {
        return;
      }
      handed := handed + output;
      at := next;
    }
  }
}
