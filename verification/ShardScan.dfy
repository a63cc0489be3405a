/**
 What the threads of oracle_scan_parallel return (oracle_parallel.cpp): each takes shards of the key from a
 shared counter. No row comes twice, and a row is lost exactly when its key lies between two shards.
 */
module ShardScan {
  import opened Arithmetic
  import opened Protocol
  import opened Sequences
  import opened ParallelScan
  import opened ShardRanges

  /** The keys planned for, and in how many ranges. */
  datatype Keys = Keys(low: int64, high: int64, shards: nat, anyNulls: bool) {
    predicate Valid() {
      low <= high && 0 < shards <= CountOf(low, high)
    }
  }

  /** What the query for the lowest and the highest key and for NULL keys says is true of the table. */
  ghost predicate Bound(keys: Keys, table: seq<Row>) {
    forall row :: row in table ==> WithinBounds(keys, row)
  }

  predicate WithinBounds(keys: Keys, row: Row) {
    if row.key.Some? then keys.low as real <= row.key.value <= keys.high as real else keys.anyNulls
  }

  function InShard(shard: Shard): Filter {
    (row: Row) => shard.Reads(row.key)
  }

  function InShards(plan: seq<Shard>): (selected: seq<Filter>)
    ensures |selected| == |plan| && forall i :: 0 <= i < |plan| ==> selected[i] == InShard(plan[i])
  {
    if plan == [] then [] else [InShard(plan[0])] + InShards(plan[1..])
  }

  /** The chunks of a scan are what the statements of a plan select. */
  ghost predicate CutByKeys(chunks: seq<seq<Row>>, plan: seq<Shard>, keys: Keys, table: seq<Row>) {
    && keys.Valid() && IsPlan(plan, keys.low, keys.high, keys.shards, keys.anyNulls)
    && Bound(keys, table) && Selects(chunks, InShards(plan), table)
  }

  /** The key of the row lies strictly between two shards. */
  ghost predicate Lost(keys: Keys, row: Row)
    requires keys.Valid()
  {
    row.key.Some? && InGap(keys.low, keys.high, keys.shards, row.key.value)
  }

  lemma ValidKeys(chunks: seq<seq<Row>>, plan: seq<Shard>, keys: Keys, table: seq<Row>)
    requires CutByKeys(chunks, plan, keys, table)
    ensures keys.Valid()
  {
  }

  /** A row, with a key or without one, is in exactly one shard, or in none when its key is in a gap. */
  lemma ShardsOfRow(plan: seq<Shard>, keys: Keys, row: Row)
    requires keys.Valid() && IsPlan(plan, keys.low, keys.high, keys.shards, keys.anyNulls) && WithinBounds(keys, row)
    ensures Readers(InShards(plan), row) == if Lost(keys, row) then 0 else 1
  {
    hide Readers, RangeOf, InGap, InShards;
    if row.key.Some? {
      ReadUnlessInGap(keys.low, keys.high, keys.shards, row.key.value);
    }
    if Lost(keys, row) {
      forall i | 0 <= i < |plan| ensures !plan[i].Reads(row.key) {
        assert i < keys.shards ==> plan[i] == RangeOf(keys.low, keys.high, keys.shards, i);
      }
      NoReaders(InShards(plan), row);
    } else {
      var index := ShardOf(plan, keys, row);
      forall i | 0 <= i < |plan| && plan[i].Reads(row.key) ensures i == index {
        AtMostOneShard(plan, keys.low, keys.high, keys.shards, keys.anyNulls, row.key, i, index);
      }
      OneReader(InShards(plan), row, index);
    }
  }

  ghost function ShardOf(plan: seq<Shard>, keys: Keys, row: Row): (index: nat)
    requires keys.Valid() && IsPlan(plan, keys.low, keys.high, keys.shards, keys.anyNulls)
    requires WithinBounds(keys, row) && !Lost(keys, row)
    ensures index < |plan| && plan[index].Reads(row.key)
  {
    if row.key.None? then keys.shards
    else
      ReadUnlessInGap(keys.low, keys.high, keys.shards, row.key.value);
      var i :| 0 <= i < keys.shards && RangeOf(keys.low, keys.high, keys.shards, i).Reads(row.key);
      i
  }

  /** A row of the table stands in the chunks as often as in the table, or nowhere when it is lost. */
  lemma ChunksAreTheRest(chunks: seq<seq<Row>>, plan: seq<Shard>, keys: Keys, table: seq<Row>, row: Row)
    requires CutByKeys(chunks, plan, keys, table)
    ensures multiset(Joined(chunks))[row] == if Lost(keys, row) then 0 else multiset(table)[row]
  {
    hide Joined, Readers, IsPlan, InGap, InShards;
    CountInChunks(chunks, InShards(plan), table, row);
    if row in table {
      ShardsOfRow(plan, keys, row);
    }
  }

  /** The scan has no filter of its own. */
  predicate Everything(row: Row) {
    true
  }

  lemma {:induction false} EverythingPasses(rows: seq<Row>)
    ensures Passing(rows, Everything) == rows
  {
    if rows != [] {
      EverythingPasses(rows[1..]);
    }
  }

  /**
   Exactly once, or not at all. However the threads interleave and whatever sizes the batches come in, at every
   moment no row has been handed over more often than it stands in the table; and once every thread has
   reported the end, each row has been handed over as often as it stands there, except that one whose key lies
   between two shards never is.
   */
  lemma ShardedRowsOnce(states: seq<State>, scan: Scan, plan: seq<Shard>, keys: Keys, table: seq<Row>)
    requires CutByKeys(scan.chunks, plan, keys, table) && scan.filter == Everything && Run(states, scan)
    ensures forall i :: 0 <= i < |states| ==> states[i].handed <= multiset(table)
    ensures AllDone(states[|states| - 1]) ==> forall row: Row ::
      states[|states| - 1].handed[row] == if Lost(keys, row) then 0 else multiset(table)[row]
  {
    hide Run, Joined, CutByKeys, AllDone, Lost, Passing;
    RunIsNotEmpty(states, scan);
    ValidKeys(scan.chunks, plan, keys, table);
    var rows := Joined(scan.chunks);
    EverythingPasses(rows);
    forall row: Row ensures multiset(rows)[row] == if Lost(keys, row) then 0 else multiset(table)[row] {
      ChunksAreTheRest(scan.chunks, plan, keys, table, row);
    }
    assert multiset(rows) <= multiset(table);
    forall i | 0 <= i < |states| ensures states[i].handed <= multiset(table) {
      HandedOfChunks(states, scan, i);
      NoMoreOften(states[i].handed, multiset(rows), multiset(table));
    }
    HandedOfChunks(states, scan, |states| - 1);
  }

  lemma NoMoreOften(a: multiset<Row>, b: multiset<Row>, c: multiset<Row>)
    requires a <= b <= c
    ensures a <= c
  {
  }

  /** The table is returned whole exactly when no key in it lies between two shards. */
  lemma WholeTableReturned(states: seq<State>, scan: Scan, plan: seq<Shard>, keys: Keys, table: seq<Row>)
    requires CutByKeys(scan.chunks, plan, keys, table) && scan.filter == Everything && Run(states, scan)
    requires AllDone(states[|states| - 1])
    ensures states[|states| - 1].handed == multiset(table) <==> forall row :: row in table ==> !Lost(keys, row)
  {
    hide Run, CutByKeys, AllDone, Lost;
    RunIsNotEmpty(states, scan);
    ValidKeys(scan.chunks, plan, keys, table);
    ShardedRowsOnce(states, scan, plan, keys, table);
    var handed := states[|states| - 1].handed;
    forall row: Row ensures handed[row] == multiset(table)[row] <==> row in table ==> !Lost(keys, row) {
      assert row in table <==> multiset(table)[row] > 0;
    }
    if handed != multiset(table) {
      var row :| handed[row] != multiset(table)[row];
    }
  }

  predicate WholeKeys(table: seq<Row>) {
    forall row :: row in table && row.key.Some? ==> row.key.value.Floor as real == row.key.value
  }

  /** A table whose keys are whole numbers or NULL is returned whole. */
  lemma WholeKeysReturned(states: seq<State>, scan: Scan, plan: seq<Shard>, keys: Keys, table: seq<Row>)
    requires CutByKeys(scan.chunks, plan, keys, table) && scan.filter == Everything && Run(states, scan)
    requires AllDone(states[|states| - 1]) && WholeKeys(table)
    ensures states[|states| - 1].handed == multiset(table)
  {
    hide Run, AllDone, IsPlan;
    forall row | row in table ensures !Lost(keys, row) {
      if row.key.Some? {
        assert WithinBounds(keys, row);
        WholeKeyIsSafe(keys, row.key.value);
      }
    }
    WholeTableReturned(states, scan, plan, keys, table);
  }

  lemma WholeKeyIsSafe(keys: Keys, value: real)
    requires keys.Valid() && keys.low as real <= value <= keys.high as real && value.Floor as real == value
    ensures !InGap(keys.low, keys.high, keys.shards, value)
  {
    hide InGap, RangeOf;
    assert keys.low <= value.Floor <= keys.high;
    WholeKeysAreRead(keys.low, keys.high, keys.shards, value.Floor);
    ReadUnlessInGap(keys.low, keys.high, keys.shards, value);
  }
}
