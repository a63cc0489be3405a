/**
 Cutting a heap table into ROWID ranges between its extents, so that several sessions can read it. ROWIDs
 are numbers here, in the order Oracle gives them.
 */
module RowidRanges {
  import opened Arithmetic
  import opened Protocol

  const MINIMUM_BLOCKS := 2048

  /** An extent: the first ROWID it can hold, and how many blocks it has. */
  datatype Extent = Extent(first: int, blocks: nat)

  /** From one cut point up to the next; open where there is none. */
  datatype Range = Range(from: Option<int>, below: Option<int>) {
    predicate Reads(rowid: int) {
      && (from.Some? ==> from.value <= rowid)
      && (below.Some? ==> rowid < below.value)
    }
  }

  /** The blocks of the extents from `first` up to `end`. */
  function Held(extents: seq<Extent>, first: nat, end: nat): nat
    requires end <= |extents|
  {
    if end <= first then 0 else Held(extents, first, end - 1) + extents[end - 1].blocks
  }

  function Blocks(extents: seq<Extent>): nat {
    Held(extents, 0, |extents|)
  }

  ghost predicate InRowidOrder(extents: seq<Extent>) {
    forall i, j :: 0 <= i < j < |extents| ==> extents[i].first < extents[j].first
  }

  ghost predicate Rising(cuts: seq<int>) {
    forall i, j :: 0 <= i < j < |cuts| ==> cuts[i] < cuts[j]
  }

  function Chunks(sessions: nat, totalBlocks: nat): nat {
    Min(Min(sessions * 4, 64), totalBlocks / 256)
  }

  function Target(totalBlocks: nat, chunks: nat): nat
    requires chunks > 0
  {
    (totalBlocks + chunks - 1) / chunks
  }

  lemma TargetCovers(totalBlocks: nat, chunks: nat)
    requires 0 < chunks && 0 < totalBlocks
    ensures 0 < Target(totalBlocks, chunks) && totalBlocks <= chunks * Target(totalBlocks, chunks)
  {
    DivMod(totalBlocks + chunks - 1, chunks);
    var target := Target(totalBlocks, chunks);
    assert target * chunks >= totalBlocks;
    if target <= 0 {
      MulMonotone(target, 0, chunks);
    }
  }

  /** The first extent of the run that cut `i` ends. */
  function RunStart(at: seq<nat>, i: nat): nat
    requires i <= |at|
  {
    if i == 0 then 0 else at[i - 1]
  }

  /** The run from `first` up to `end` is the shortest from there that holds the target number of blocks. */
  ghost predicate ShortestRun(extents: seq<Extent>, target: nat, first: nat, end: nat) {
    && first < end < |extents|
    && Held(extents, first, end) >= target
    && (end - first > 1 ==> Held(extents, first, end - 1) < target)
  }

  ghost predicate Runs(extents: seq<Extent>, target: nat, at: seq<nat>) {
    forall i {:trigger RunStart(at, i)} :: 0 <= i < |at| ==> ShortestRun(extents, target, RunStart(at, i), at[i])
  }

  /** The extents at which the table is cut: each ends a shortest run, and what is left up to `bound` has none. */
  ghost predicate Cut(extents: seq<Extent>, target: nat, at: seq<nat>, bound: nat)
    requires bound <= |extents|
  {
    && Runs(extents, target, at)
    && RunStart(at, |at|) <= bound
    && (RunStart(at, |at|) < bound ==> Held(extents, RunStart(at, |at|), bound) < target)
  }

  /** Each cut is the first ROWID of the extent it is made at. */
  ghost predicate FirstsOf(extents: seq<Extent>, at: seq<nat>, cuts: seq<int>) {
    && |at| == |cuts|
    && forall i :: 0 <= i < |cuts| ==> at[i] < |extents| && cuts[i] == extents[at[i]].first
  }

  /** A cut after every shortest run of extents that holds the target number of blocks, up to the last extent. */
  method CutPoints(extents: seq<Extent>, target: nat) returns (cuts: seq<int>, ghost at: seq<nat>)
    requires InRowidOrder(extents) && extents != []
    ensures Rising(cuts) && FirstsOf(extents, at, cuts)
    ensures Cut(extents, target, at, |extents| - 1)
  {
    cuts, at := [], [];
    var accumulated: nat := 0;
    ghost var first := 0;
    for index := 0 to |extents| - 1
      invariant Runs(extents, target, at) && FirstsOf(extents, at, cuts)
      invariant first == RunStart(at, |at|) <= index
      invariant accumulated == Held(extents, first, index)
      invariant first < index ==> accumulated < target
    {
      hide Runs, FirstsOf, RunStart;
      accumulated := accumulated + extents[index].blocks;
      if accumulated >= target {
        RunAdded(extents, target, at, index + 1);
        FirstAdded(extents, at, cuts, index + 1);
        cuts, at, first := cuts + [extents[index + 1].first], at + [index + 1], index + 1;
        accumulated := 0;
      }
    }
    hide Runs, FirstsOf;
    CutsRise(extents, target, at, cuts);
  }

  lemma FirstAdded(extents: seq<Extent>, at: seq<nat>, cuts: seq<int>, end: nat)
    requires FirstsOf(extents, at, cuts) && end < |extents|
    ensures FirstsOf(extents, at + [end], cuts + [extents[end].first])
  {
  }

  lemma CutsRise(extents: seq<Extent>, target: nat, at: seq<nat>, cuts: seq<int>)
    requires InRowidOrder(extents) && Runs(extents, target, at) && FirstsOf(extents, at, cuts)
    ensures Rising(cuts)
  {
    forall i, j | 0 <= i < j < |at|
      ensures cuts[i] < cuts[j]
    {
      LaterRun(extents, target, at, i, j);
    }
  }

  lemma {:induction false} LaterRun(extents: seq<Extent>, target: nat, at: seq<nat>, i: nat, j: nat)
    requires Runs(extents, target, at) && i < j < |at|
    ensures at[i] < at[j] < |extents|
    decreases j
  {
    hide Held;
    assert ShortestRun(extents, target, RunStart(at, j), at[j]);
    if i < j - 1 {
      LaterRun(extents, target, at, i, j - 1);
    }
  }

  lemma RunAdded(extents: seq<Extent>, target: nat, at: seq<nat>, end: nat)
    requires Runs(extents, target, at) && ShortestRun(extents, target, RunStart(at, |at|), end)
    ensures Runs(extents, target, at + [end]) && RunStart(at + [end], |at| + 1) == end
  {
    hide ShortestRun;
    var longer := at + [end];
    forall i | 0 <= i < |longer|
      ensures ShortestRun(extents, target, RunStart(longer, i), longer[i])
    {
      assert RunStart(longer, i) == RunStart(at, i);
    }
  }

  /** Runs that each hold the target are no more than that many targets. */
  lemma {:induction false} RunsHold(extents: seq<Extent>, target: nat, at: seq<nat>)
    requires Runs(extents, target, at)
    ensures RunStart(at, |at|) <= |extents|
    ensures |at| * target <= Held(extents, 0, RunStart(at, |at|))
  {
    if at != [] {
      var count := |at| - 1;
      RunsBefore(extents, target, at);
      RunsHold(extents, target, at[..count]);
      hide Runs;
      MulSuccessor(count, target);
      HeldSplits(extents, RunStart(at, count), at[count]);
    }
  }

  lemma RunsBefore(extents: seq<Extent>, target: nat, at: seq<nat>)
    requires Runs(extents, target, at) && at != []
    ensures Runs(extents, target, at[..|at| - 1])
    ensures RunStart(at[..|at| - 1], |at| - 1) == RunStart(at, |at| - 1)
    ensures ShortestRun(extents, target, RunStart(at, |at| - 1), at[|at| - 1])
  {
    hide ShortestRun;
    var before := at[..|at| - 1];
    forall i | 0 <= i < |before|
      ensures ShortestRun(extents, target, RunStart(before, i), before[i])
    {
      assert RunStart(before, i) == RunStart(at, i);
    }
  }

  lemma {:induction false} HeldSplits(extents: seq<Extent>, middle: nat, end: nat)
    requires middle <= end <= |extents|
    ensures Held(extents, 0, end) == Held(extents, 0, middle) + Held(extents, middle, end)
    decreases end
  {
    if middle < end {
      HeldSplits(extents, middle, end - 1);
    }
  }

  lemma {:induction false} HeldGrows(extents: seq<Extent>, end: nat, more: nat)
    requires end <= more <= |extents|
    ensures Held(extents, 0, end) <= Held(extents, 0, more)
    decreases more
  {
    if end < more {
      HeldGrows(extents, end, more - 1);
    }
  }

  /** There is no cut exactly when all extents but the last hold less than the target. */
  lemma CutsUnlessSmall(extents: seq<Extent>, target: nat, at: seq<nat>)
    requires extents != [] && target > 0 && Cut(extents, target, at, |extents| - 1)
    ensures at == [] <==> Held(extents, 0, |extents| - 1) < target
  {
    hide Held;
    if at != [] {
      assert ShortestRun(extents, target, RunStart(at, 0), at[0]);
      HeldGrows(extents, at[0], |extents| - 1);
    } else if |extents| == 1 {
      NothingHeld(extents);
    }
  }

  lemma NothingHeld(extents: seq<Extent>)
    ensures Held(extents, 0, 0) == 0
  {
  }

  function RangeBetween(cuts: seq<int>, index: nat): Range
    requires index <= |cuts|
  {
    Range(if index > 0 then Some(cuts[index - 1]) else None, if index < |cuts| then Some(cuts[index]) else None)
  }

  method RangesBetween(cuts: seq<int>) returns (ranges: seq<Range>)
    ensures |ranges| == |cuts| + 1
    ensures forall i :: 0 <= i <= |cuts| ==> ranges[i] == RangeBetween(cuts, i)
  {
    ranges := [];
    for index := 0 to |cuts| + 1
      invariant |ranges| == index
      invariant forall i :: 0 <= i < index ==> ranges[i] == RangeBetween(cuts, i)
    {
      var from, below: Option<int> := None, None;
      if index > 0 {
        from := Some(cuts[index - 1]);
      }
      if index < |cuts| {
        below := Some(cuts[index]);
      }
      ranges := ranges + [Range(from, below)];
    }
  }

  ghost predicate Partition(ranges: seq<Range>) {
    forall rowid: int :: ReadOnce(ranges, rowid)
  }

  ghost predicate ReadOnce(ranges: seq<Range>, rowid: int) {
    exists i :: 0 <= i < |ranges| && ranges[i].Reads(rowid)
      && forall j :: 0 <= j < |ranges| && ranges[j].Reads(rowid) ==> j == i
  }

  /** A ROWID between rising cuts is in exactly one range. */
  lemma {:induction false} OneRange(cuts: seq<int>, rowid: int) returns (index: nat)
    requires Rising(cuts)
    ensures index <= |cuts| && RangeBetween(cuts, index).Reads(rowid)
    ensures forall i :: 0 <= i <= |cuts| && RangeBetween(cuts, i).Reads(rowid) ==> i == index
  {
    index := 0;
    while index < |cuts| && cuts[index] <= rowid
      invariant index <= |cuts|
      invariant forall i :: 0 <= i < index ==> cuts[i] <= rowid
    {
      index := index + 1;
    }
    forall i | index < i <= |cuts|
      ensures !RangeBetween(cuts, i).Reads(rowid)
    {
      assert cuts[index] <= cuts[i - 1];
    }
  }

  lemma RangesPartition(cuts: seq<int>, ranges: seq<Range>)
    requires Rising(cuts) && |ranges| == |cuts| + 1
    requires forall i :: 0 <= i <= |cuts| ==> ranges[i] == RangeBetween(cuts, i)
    ensures Partition(ranges)
  {
    hide RangeBetween, Rising;
    forall rowid: int
      ensures ReadOnce(ranges, rowid)
    {
      var index := OneRange(cuts, rowid);
      assert ranges[index].Reads(rowid);
    }
  }

  /** A table is divided when it is not small and its extents before the last hold a chunk. */
  ghost predicate Divided(extents: seq<Extent>, sessions: nat)
    requires sessions > 0
  {
    && extents != []
    && Blocks(extents) >= MINIMUM_BLOCKS
    && Held(extents, 0, |extents| - 1) >= Target(Blocks(extents), Chunks(sessions, Blocks(extents)))
  }

  /** Each range but the last is that of a shortest run of extents holding a chunk's blocks. */
  ghost predicate BetweenCuts(extents: seq<Extent>, sessions: nat, ranges: seq<Range>, at: seq<nat>)
    requires sessions > 0 && Divided(extents, sessions) && |ranges| == |at| + 1
  {
    && Cut(extents, Target(Blocks(extents), Chunks(sessions, Blocks(extents))), at, |extents| - 1)
    && ranges[0].from == None && ranges[|at|].below == None
    && (forall i :: 0 <= i < |at| ==> at[i] < |extents| && ranges[i].below == ranges[i + 1].from == Some(extents[at[i]].first))
  }

  /** The ranges a table is read in, or none when it is read by one session: too small, or not divided by its
      extents. Every ROWID a table can hold is in exactly one, and there are no more than the chunks aimed for. */
  method PlanRanges(extents: seq<Extent>, sessions: nat) returns (ranges: seq<Range>, ghost at: seq<nat>)
    requires InRowidOrder(extents) && sessions >= 2
    requires forall i :: 0 <= i < |extents| ==> extents[i].blocks > 0
    ensures ranges == [] <==> !Divided(extents, sessions)
    ensures ranges != [] ==> Partition(ranges)
    ensures ranges != [] ==> |ranges| == |at| + 1 && BetweenCuts(extents, sessions, ranges, at)
    ensures ranges != [] ==> 2 <= |ranges| <= Chunks(sessions, Blocks(extents))
  {
    hide Partition, Target, Cut, Held, RunStart;
    at := [];
    var total := TotalBlocks(extents);
    if extents == [] || total < MINIMUM_BLOCKS {
      return [], at;
    }
    var chunks := Chunks(sessions, total);
    TargetCovers(total, chunks);
    var cuts;
    cuts, at := CutPoints(extents, Target(total, chunks));
    CutsUnlessSmall(extents, Target(total, chunks), at);
    if cuts == [] {
      return [], at;
    }
    CutsAreFewer(extents, chunks, Target(total, chunks), at);
    ranges := RangesBetween(cuts);
    RangesPartition(cuts, ranges);
  }

  lemma CutsAreFewer(extents: seq<Extent>, chunks: nat, target: nat, at: seq<nat>)
    requires extents != [] && extents[|extents| - 1].blocks > 0
    requires Cut(extents, target, at, |extents| - 1) && Blocks(extents) <= chunks * target
    ensures |at| < chunks
  {
    hide Runs;
    RunsHold(extents, target, at);
    HeldGrows(extents, RunStart(at, |at|), |extents| - 1);
    if |at| >= chunks {
      MulMonotone(chunks, |at|, target);
    }
  }

  method TotalBlocks(extents: seq<Extent>) returns (total: nat)
    ensures total == Blocks(extents)
  {
    total := 0;
    for index := 0 to |extents|
      invariant total == Held(extents, 0, index)
    {
      total := total + extents[index].blocks;
    }
  }
}
