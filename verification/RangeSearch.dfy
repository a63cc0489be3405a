/**
 Recovering the key ranges of a join's build side from a filter that only answers whether a range may
 hold a key: two binary searches for the ends, then halving every range that may hold one, within a
 budget of questions and of ranges.
 */
module RangeSearch {
  import opened Arithmetic
  import opened Protocol
  import SqlText

  const MAX_KEY_INTERVALS := 2048
  const MAX_RANGE_QUESTIONS := 16384

  // ----- midpoints without overflow

  /** Bitwise and of two's complement integers of `bits` bits and a sign. */
  function And(a: int, b: int, bits: nat): int
    decreases bits
  {
    if bits == 0 then (if a < 0 && b < 0 then -1 else 0)
    else 2 * And(a / 2, b / 2, bits - 1) + (if a % 2 == 1 && b % 2 == 1 then 1 else 0)
  }

  /** Bitwise exclusive or of the same. */
  function Xor(a: int, b: int, bits: nat): int
    decreases bits
  {
    if bits == 0 then (if (a < 0) != (b < 0) then -1 else 0)
    else 2 * Xor(a / 2, b / 2, bits - 1) + (if a % 2 != b % 2 then 1 else 0)
  }

  /** The carries and the digits of a sum. */
  lemma {:induction false} SumOfBits(a: int, b: int, bits: nat)
    requires -TwoTo(bits) <= a < TwoTo(bits) && -TwoTo(bits) <= b < TwoTo(bits)
    ensures a + b == 2 * And(a, b, bits) + Xor(a, b, bits)
    ensures -TwoTo(bits) <= And(a, b, bits) < TwoTo(bits) && -TwoTo(bits) <= Xor(a, b, bits) < TwoTo(bits)
    decreases bits
  {
    if bits > 0 {
      SumOfBits(a / 2, b / 2, bits - 1);
    }
  }

  lemma SixtyThreeBits()
    ensures TwoTo(63) == 0x8000_0000_0000_0000 && TwoTo(64) == 0x1_0000_0000_0000_0000
  {
    assert TwoTo(8) == 256;
    assert TwoTo(16) == 0x1_0000;
    assert TwoTo(24) == 0x100_0000;
    assert TwoTo(32) == 0x1_0000_0000;
    assert TwoTo(40) == 0x100_0000_0000;
    assert TwoTo(48) == 0x1_0000_0000_0000;
    assert TwoTo(56) == 0x100_0000_0000_0000;
  }

  lemma HalfPower(bits: nat, distance: int)
    requires 0 < distance < TwoTo(bits)
    ensures bits > 0 && TwoTo(bits) == 2 * TwoTo(bits - 1)
  {
  }

  /** The middle of two 64-bit integers, rounded down; every intermediate value is a 64-bit integer. */
  function FloorMidpoint(a: int64, b: int64): (mid: int64)
    ensures mid == (a + b) / 2
  {
    SixtyThreeBits();
    SumOfBits(a, b, 63);
    var carries: int64 := And(a, b, 63);
    var halves: int64 := Xor(a, b, 63) / 2;
    carries + halves
  }

  function CeilMidpoint(a: int64, b: int64): (mid: int64)
    ensures mid == (a + b + 1) / 2
  {
    SixtyThreeBits();
    SumOfBits(a, b, 63);
    FloorMidpoint(a, b) + Xor(a, b, 63) % 2
  }

  // ----- what is asked and what is found

  datatype Interval = Interval(low: int64, high: int64) {
    predicate Has(x: int) {
      low <= x <= high
    }
  }

  ghost predicate Covers(intervals: seq<Interval>, x: int) {
    exists i :: 0 <= i < |intervals| && intervals[i].Has(x)
  }

  ghost predicate CoversAll(intervals: seq<Interval>, keys: set<int>) {
    forall key :: key in keys ==> Covers(intervals, key)
  }

  /** Non-empty intervals, each wholly before the next. */
  ghost predicate Ordered(intervals: seq<Interval>) {
    && (forall i :: 0 <= i < |intervals| ==> intervals[i].low <= intervals[i].high)
    && forall i, j :: 0 <= i < j < |intervals| ==> intervals[i].high < intervals[j].low
  }

  lemma EmptyOrNot(keys: set<int>)
    ensures keys == {} || exists key: int :: key in keys
  {
    if forall key: int :: key !in keys {
      assert keys == {};
    }
  }

  ghost function SomeKey(keys: set<int>): (key: int)
    requires keys != {}
    ensures key in keys
  {
    EmptyOrNot(keys);
    var key: int :| key in keys;
    key
  }

  type RangeFilter = (int64, int64) -> bool

  ghost predicate HasKey(keys: set<int>, low: int, high: int) {
    exists key :: key in keys && low <= key <= high
  }

  /** A filter that never denies a range that holds a key. */
  ghost predicate Sound(filter: RangeFilter, keys: set<int>) {
    forall low: int64, high: int64 :: HasKey(keys, low, high) ==> filter(low, high)
  }

  /** A filter that also denies every range that holds none. */
  ghost predicate Exact(filter: RangeFilter, keys: set<int>) {
    forall low: int64, high: int64 :: filter(low, high) <==> HasKey(keys, low, high)
  }

  ghost predicate EachHasKey(intervals: seq<Interval>, keys: set<int>) {
    forall i :: 0 <= i < |intervals| ==> HasKey(keys, intervals[i].low, intervals[i].high)
  }

  /** What one interval becomes: itself when it is a point, else those halves that may hold a key. */
  function Kept(filter: RangeFilter, interval: Interval): seq<Interval> {
    if interval.low == interval.high then [interval] else
      var mid := FloorMidpoint(interval.low, interval.high);
      (if filter(interval.low, mid) then [Interval(interval.low, mid)] else [])
      + (if filter(mid + 1, interval.high) then [Interval(mid + 1, interval.high)] else [])
  }

  function NextLevel(filter: RangeFilter, intervals: seq<Interval>): seq<Interval> {
    if intervals == [] then [] else NextLevel(filter, intervals[..|intervals| - 1]) + Kept(filter, intervals[|intervals| - 1])
  }

  /** The intervals after so many levels, and the questions they cost. */
  function Level(filter: RangeFilter, start: Interval, level: nat): seq<Interval> {
    if level == 0 then [start] else NextLevel(filter, Level(filter, start, level - 1))
  }

  function Asked(filter: RangeFilter, start: Interval, level: nat): nat {
    if level == 0 then 0 else Asked(filter, start, level - 1) + QuestionsFor(Level(filter, start, level - 1))
  }

  predicate WithinBudget(filter: RangeFilter, start: Interval, level: nat, before: nat) {
    |Level(filter, start, level)| <= MAX_KEY_INTERVALS && before + Asked(filter, start, level) <= MAX_RANGE_QUESTIONS
  }

  /** Every level before this one had something to halve, and the level after it fits. */
  ghost predicate Reached(filter: RangeFilter, start: Interval, level: nat, before: nat) {
    forall k :: 0 <= k < level ==> !AllPoints(Level(filter, start, k)) && WithinBudget(filter, start, k + 1, before)
  }

  lemma FirstLevel(filter: RangeFilter, start: Interval, before: nat)
    ensures Level(filter, start, 0) == [start] && Asked(filter, start, 0) == 0 && Reached(filter, start, 0, before)
  {
  }

  lemma LevelAfter(filter: RangeFilter, start: Interval, level: nat, before: nat)
    ensures Level(filter, start, level + 1) == NextLevel(filter, Level(filter, start, level))
    ensures Asked(filter, start, level + 1) == Asked(filter, start, level) + QuestionsFor(Level(filter, start, level))
    ensures WithinBudget(filter, start, level + 1, before)
      <==> |Level(filter, start, level + 1)| <= MAX_KEY_INTERVALS
           && before + Asked(filter, start, level + 1) <= MAX_RANGE_QUESTIONS
  {
    hide NextLevel, QuestionsFor, AllPoints;
  }

  lemma ReachedNext(filter: RangeFilter, start: Interval, level: nat, before: nat)
    requires Reached(filter, start, level, before) && !AllPoints(Level(filter, start, level))
    requires WithinBudget(filter, start, level + 1, before)
    ensures Reached(filter, start, level + 1, before)
  {
    hide Level, WithinBudget, AllPoints;
  }

  /** Where the halving stops: at the first level of nothing but points, or at the last that fits both budgets
      when `before` questions were asked earlier. */
  ghost predicate StopsAt(filter: RangeFilter, start: Interval, level: nat, before: nat, exhausted: bool) {
    && exhausted == AllPoints(Level(filter, start, level))
    && Reached(filter, start, level, before)
    && (!exhausted ==> !WithinBudget(filter, start, level + 1, before))
  }

  class KeyRangeSearch {
    const filter: RangeFilter
    const domainLow: int64
    const domainHigh: int64
    ghost const keys: set<int>
    var questions: nat

    ghost predicate Valid() {
      && domainLow <= domainHigh
      && Sound(filter, keys)
      && forall key :: key in keys ==> domainLow <= key <= domainHigh
    }

    constructor (filter: RangeFilter, domainLow: int64, domainHigh: int64, ghost keys: set<int>)
      requires domainLow <= domainHigh
      requires Sound(filter, keys)
      requires forall key :: key in keys ==> domainLow <= key <= domainHigh
      ensures Valid() && questions == 0
      ensures this.filter == filter && this.domainLow == domainLow && this.domainHigh == domainHigh && this.keys == keys
    {
      this.filter := filter;
      this.domainLow, this.domainHigh := domainLow, domainHigh;
      this.keys := keys;
      questions := 0;
    }

    method MayHold(low: int64, high: int64) returns (answer: bool)
      modifies this
      ensures answer == filter(low, high) && questions == old(questions) + 1
    {
      questions := questions + 1;
      answer := filter(low, high);
    }

    /** The largest key, or for a filter with false positives a bound above it. */
    method LargestKey() returns (high: int64)
      requires Valid()
      modifies this
      ensures domainLow <= high <= domainHigh
      ensures forall key :: key in keys ==> key <= high
      ensures Exact(filter, keys) && keys != {} ==> high in keys
      ensures high == domainLow || filter(high, domainHigh)
      ensures questions <= old(questions) + 64
    {
      SixtyThreeBits();
      hide FloorMidpoint, CeilMidpoint, TwoTo;
      var lo: int64, hi: int64 := domainLow, domainHigh;
      ghost var steps: nat := 0;
      while lo < hi
        invariant domainLow <= lo <= hi <= domainHigh
        invariant steps <= 64 && hi - lo < TwoTo(64 - steps)
        invariant questions == old(questions) + steps
        invariant forall key :: key in keys ==> key <= hi
        invariant lo == domainLow || filter(lo, domainHigh)
        decreases hi - lo
      {
        var mid := CeilMidpoint(lo, hi);
        HalfPower(64 - steps, hi - lo);
        var answer := MayHold(mid, domainHigh);
        if answer {
          lo := mid;
        } else {
          assert !HasKey(keys, mid, domainHigh);
          hi := mid - 1;
        }
        steps := steps + 1;
      }
      high := lo;
      if Exact(filter, keys) && keys != {} {
        ghost var some := SomeKey(keys);
        assert HasKey(keys, lo, domainHigh);
      }
    }

    /** The smallest key, or a bound below it. */
    method SmallestKey() returns (low: int64)
      requires Valid()
      modifies this
      ensures domainLow <= low <= domainHigh
      ensures forall key :: key in keys ==> low <= key
      ensures Exact(filter, keys) && keys != {} ==> low in keys
      ensures low == domainHigh || filter(domainLow, low)
      ensures questions <= old(questions) + 64
    {
      SixtyThreeBits();
      hide FloorMidpoint, CeilMidpoint, TwoTo;
      var lo: int64, hi: int64 := domainLow, domainHigh;
      ghost var steps: nat := 0;
      while lo < hi
        invariant domainLow <= lo <= hi <= domainHigh
        invariant steps <= 64 && hi - lo < TwoTo(64 - steps)
        invariant questions == old(questions) + steps
        invariant forall key :: key in keys ==> lo <= key
        invariant hi == domainHigh || filter(domainLow, hi)
        decreases hi - lo
      {
        var mid := FloorMidpoint(lo, hi);
        HalfPower(64 - steps, hi - lo);
        var answer := MayHold(domainLow, mid);
        if answer {
          hi := mid;
        } else {
          assert !HasKey(keys, domainLow, mid);
          lo := mid + 1;
        }
        steps := steps + 1;
      }
      low := lo;
      if Exact(filter, keys) && keys != {} {
        ghost var some := SomeKey(keys);
        assert HasKey(keys, domainLow, lo);
      }
    }

    /** What holds of the intervals between two levels. */
    ghost predicate Refined(intervals: seq<Interval>) {
      && CoversAll(intervals, keys)
      && (keys != {} ==> Ordered(intervals))
      && (Exact(filter, keys) && keys != {} ==> EachHasKey(intervals, keys))
    }

    /** The halves of one interval of more than one point that may hold a key. */
    method HalveOne(interval: Interval) returns (halves: seq<Interval>)
      requires Valid() && interval.low != interval.high && questions + 2 <= MAX_RANGE_QUESTIONS
      modifies this
      ensures questions == old(questions) + 2
      ensures halves == Kept(filter, interval) && HalvesOf(interval, halves)
    {
      hide FloorMidpoint;
      var mid := FloorMidpoint(interval.low, interval.high);
      halves := [];
      var lower := MayHold(interval.low, mid);
      if lower {
        halves := halves + [Interval(interval.low, mid)];
      }
      var upper := MayHold(mid + 1, interval.high);
      if upper {
        halves := halves + [Interval(mid + 1, interval.high)];
      }
      HalvesCover(interval, mid, halves);
    }

    lemma KeptNext(intervals: seq<Interval>, index: nat)
      requires index < |intervals|
      ensures NextLevel(filter, intervals[..index + 1]) == NextLevel(filter, intervals[..index]) + Kept(filter, intervals[index])
      ensures intervals[index].low == intervals[index].high ==> Kept(filter, intervals[index]) == [intervals[index]]
    {
      hide FloorMidpoint;
      assert intervals[..index + 1][..index] == intervals[..index];
    }

    lemma HalvesCover(interval: Interval, mid: int64, halves: seq<Interval>)
      requires Valid() && interval.low != interval.high
      requires mid == (interval.low + interval.high) / 2
      requires halves == (if filter(interval.low, mid) then [Interval(interval.low, mid)] else [])
                         + (if filter(mid + 1, interval.high) then [Interval(mid + 1, interval.high)] else [])
      ensures HalvesOf(interval, halves)
    {
      forall key | key in keys && interval.Has(key)
        ensures Covers(halves, key)
      {
        assert key <= mid ==> HasKey(keys, interval.low, mid);
        assert key > mid ==> HasKey(keys, mid + 1, interval.high);
        assert key <= mid ==> halves[0].Has(key);
        assert key > mid ==> halves[|halves| - 1].Has(key);
      }
    }

    /** What may take the place of an interval. */
    ghost predicate HalvesOf(interval: Interval, halves: seq<Interval>) {
      && (forall key :: key in keys && interval.Has(key) ==> Covers(halves, key))
      && (interval.low <= interval.high ==>
            && Ordered(halves)
            && forall i :: 0 <= i < |halves| ==> interval.low <= halves[i].low && halves[i].high <= interval.high)
      && (Exact(filter, keys) && keys != {} && HasKey(keys, interval.low, interval.high) ==> EachHasKey(halves, keys))
    }

    /** `next` takes the place of `done`, the first intervals of a level. */
    ghost predicate Replaces(done: seq<Interval>, next: seq<Interval>) {
      && (forall key :: key in keys && Covers(done, key) ==> Covers(next, key))
      && (keys != {} ==> Ordered(next))
      && (keys != {} ==> forall i :: 0 <= i < |next| ==> done != [] && next[i].high <= done[|done| - 1].high)
      && (Exact(filter, keys) && keys != {} ==> EachHasKey(next, keys))
    }

    lemma ReplacesMore(done: seq<Interval>, interval: Interval, next: seq<Interval>, halves: seq<Interval>)
      requires Replaces(done, next) && HalvesOf(interval, halves)
      requires keys != {} ==> Ordered(done + [interval])
      requires Exact(filter, keys) && keys != {} ==> HasKey(keys, interval.low, interval.high)
      ensures Replaces(done + [interval], next + halves)
    {
      var longer := done + [interval];
      forall key | key in keys && Covers(longer, key)
        ensures Covers(next + halves, key)
      {
        KeepInterval(done, interval);
        CoversEither(next, halves, key);
      }
      if keys != {} {
        assert longer[|done|] == interval;
        if done != [] {
          assert longer[|done| - 1].high < longer[|done|].low;
        }
      }
    }

    lemma UnsplitInterval(interval: Interval)
      requires Exact(filter, keys) && keys != {} ==> HasKey(keys, interval.low, interval.high)
      ensures HalvesOf(interval, [interval])
    {
      forall key | key in keys && interval.Has(key)
        ensures Covers([interval], key)
      {
        assert [interval][0].Has(key);
      }
    }

    /** One level: every interval of more than one point is halved, and the halves that may hold a key are
        kept. */
    method HalveAll(intervals: seq<Interval>) returns (next: seq<Interval>, splitAny: bool, overBudget: bool)
      requires Valid() && Refined(intervals) && questions <= MAX_RANGE_QUESTIONS
      modifies this
      ensures old(questions) <= questions <= MAX_RANGE_QUESTIONS
      ensures splitAny && !overBudget ==> questions > old(questions)
      ensures overBudget <==> old(questions) + QuestionsFor(intervals) > MAX_RANGE_QUESTIONS
      ensures !overBudget ==> Refined(next) && next == NextLevel(filter, intervals) && questions == old(questions) + QuestionsFor(intervals)
      ensures splitAny <==> !AllPoints(intervals)
      ensures !splitAny ==> next == intervals && !overBudget
    {
      next, splitAny, overBudget := [], false, false;
      NothingReplaced();
      hide Replaces, Refined, HalvesOf, Ordered, Kept, NextLevel, QuestionsFor, AllPoints;
      for index := 0 to |intervals|
        invariant questions == old(questions) + QuestionsFor(intervals[..index]) <= MAX_RANGE_QUESTIONS
        invariant splitAny ==> questions > old(questions)
        invariant splitAny <==> !AllPoints(intervals[..index])
        invariant !splitAny ==> next == intervals[..index]
        invariant !overBudget && next == NextLevel(filter, intervals[..index])
        invariant Replaces(intervals[..index], next)
      {
        var interval := intervals[index];
        assert intervals[..index + 1] == intervals[..index] + [interval];
        LevelPrefix(intervals, index);
        KeptNext(intervals, index);
        QuestionsNext(intervals, index);
        PointsNext(intervals, index);
        if interval.low == interval.high {
          UnsplitInterval(interval);
          ReplacesMore(intervals[..index], interval, next, [interval]);
          next := next + [interval];
          continue;
        }
        splitAny := true;
        if questions + 2 > MAX_RANGE_QUESTIONS {
          overBudget := true;
          HasSplit(intervals, index);
          return;
        }
        var halves := HalveOne(interval);
        ReplacesMore(intervals[..index], interval, next, halves);
        next := next + halves;
      }
      assert intervals[..|intervals|] == intervals;
      LevelDone(intervals, next);
    }

    lemma NothingReplaced()
      ensures Replaces([], [])
      ensures NextLevel(filter, []) == [] && QuestionsFor([]) == 0 && AllPoints([])
    {
    }

    lemma LevelPrefix(intervals: seq<Interval>, index: nat)
      requires Refined(intervals) && index < |intervals|
      ensures keys != {} ==> Ordered(intervals[..index] + [intervals[index]])
      ensures Exact(filter, keys) && keys != {} ==> HasKey(keys, intervals[index].low, intervals[index].high)
    {
    }

    lemma LevelDone(intervals: seq<Interval>, next: seq<Interval>)
      requires Refined(intervals) && Replaces(intervals, next)
      ensures Refined(next)
    {
    }

    /** Levels until nothing is left to halve, or the next one would not fit a budget; `exhausted` says which. */
    method Refine(start: Interval) returns (intervals: seq<Interval>, exhausted: bool, ghost level: nat)
      requires Valid() && Refined([start]) && questions <= MAX_RANGE_QUESTIONS
      modifies this
      ensures questions <= MAX_RANGE_QUESTIONS && |intervals| <= MAX_KEY_INTERVALS
      ensures Refined(intervals)
      ensures intervals == Level(filter, start, level) && exhausted == AllPoints(intervals)
      ensures StopsAt(filter, start, level, old(questions), exhausted)
    {
      hide Refined, AllPoints, QuestionsFor, NextLevel, Level, Asked, WithinBudget, Reached;
      intervals, exhausted, level := [start], false, 0;
      FirstLevel(filter, start, questions);
      while true
        invariant questions == old(questions) + Asked(filter, start, level) <= MAX_RANGE_QUESTIONS && |intervals| <= MAX_KEY_INTERVALS
        invariant Refined(intervals) && intervals == Level(filter, start, level)
        invariant Reached(filter, start, level, old(questions))
        decreases MAX_RANGE_QUESTIONS - questions
      {
        var next, splitAny, overBudget := HalveAll(intervals);
        LevelAfter(filter, start, level, old(questions));
        if overBudget || |next| > MAX_KEY_INTERVALS {
          return;
        }
        if !splitAny {
          exhausted := true;
          return;
        }
        ReachedNext(filter, start, level, old(questions));
        intervals, level := next, level + 1;
      }
    }
  }

  /** The questions that halving every interval of more than one point asks. */
  function QuestionsFor(intervals: seq<Interval>): nat {
    if intervals == [] then 0
    else
      var last := intervals[|intervals| - 1];
      QuestionsFor(intervals[..|intervals| - 1]) + (if last.low == last.high then 0 else 2)
  }

  lemma {:induction false} QuestionsOfPrefix(intervals: seq<Interval>, count: nat)
    requires count <= |intervals|
    ensures QuestionsFor(intervals[..count]) <= QuestionsFor(intervals)
  {
    if count < |intervals| {
      var rest := intervals[..|intervals| - 1];
      QuestionsOfPrefix(rest, count);
      assert rest[..count] == intervals[..count];
    } else {
      assert intervals[..count] == intervals;
    }
  }

  lemma PointsNext(intervals: seq<Interval>, index: nat)
    requires index < |intervals|
    ensures AllPoints(intervals[..index + 1])
      <==> AllPoints(intervals[..index]) && intervals[index].low == intervals[index].high
  {
    assert intervals[..index + 1] == intervals[..index] + [intervals[index]];
  }

  lemma {:induction false} QuestionsNext(intervals: seq<Interval>, index: nat)
    requires index < |intervals|
    ensures QuestionsFor(intervals[..index + 1])
         == QuestionsFor(intervals[..index]) + (if intervals[index].low == intervals[index].high then 0 else 2)
    ensures QuestionsFor(intervals[..index + 1]) <= QuestionsFor(intervals)
  {
    assert intervals[..index + 1][..index] == intervals[..index];
    QuestionsOfPrefix(intervals, index + 1);
  }

  lemma HasSplit(intervals: seq<Interval>, index: nat)
    requires index < |intervals| && intervals[index].low != intervals[index].high
    ensures !AllPoints(intervals)
  {
  }

  predicate AllPoints(intervals: seq<Interval>) {
    forall i :: 0 <= i < |intervals| ==> intervals[i].low == intervals[i].high
  }

  lemma CoversEither(a: seq<Interval>, b: seq<Interval>, x: int)
    ensures Covers(a + b, x) <==> Covers(a, x) || Covers(b, x)
  {
    if Covers(a, x) {
      var i :| 0 <= i < |a| && a[i].Has(x);
      assert (a + b)[i].Has(x);
    }
    if Covers(b, x) {
      var i :| 0 <= i < |b| && b[i].Has(x);
      assert (a + b)[|a| + i].Has(x);
    }
  }

  lemma KeepInterval(intervals: seq<Interval>, interval: Interval)
    ensures forall x :: Covers(intervals + [interval], x) <==> Covers(intervals, x) || interval.Has(x)
  {
    forall x
      ensures Covers(intervals + [interval], x) <==> Covers(intervals, x) || interval.Has(x)
    {
      CoversEither(intervals, [interval], x);
      if interval.Has(x) {
        assert [interval][0].Has(x);
      }
    }
  }

  // ----- the predicate that is sent

  datatype Term = Equal(value: int64) | InList(values: seq<int64>) | Between(low: int64, high: int64) {
    /** The predicate is true of a key. */
    predicate Selects(x: int) {
      match this
      case Equal(value) => x == value
      case InList(values) => exists i :: 0 <= i < |values| && values[i] == x
      case Between(low, high) => low <= x <= high
    }

    /** Oracle accepts no longer list. */
    predicate Sendable() {
      InList? ==> 1 < |values| <= SqlText.MAX_IN_LIST_VALUES
    }
  }

  ghost predicate SelectedBy(terms: seq<Term>, x: int) {
    exists i :: 0 <= i < |terms| && terms[i].Selects(x)
  }

  lemma SelectedByMore(terms: seq<Term>, term: Term, x: int)
    ensures SelectedBy(terms + [term], x) <==> SelectedBy(terms, x) || term.Selects(x)
  {
    var longer := terms + [term];
    if SelectedBy(terms, x) {
      var i :| 0 <= i < |terms| && terms[i].Selects(x);
      assert longer[i].Selects(x);
    }
    if term.Selects(x) {
      assert longer[|terms|].Selects(x);
    }
  }

  ghost predicate SameCover(a: seq<Interval>, b: seq<Interval>) {
    forall x :: Covers(a, x) <==> Covers(b, x)
  }

  /** Neighbours that touch become one interval. */
  method MergeNeighbours(intervals: seq<Interval>) returns (merged: seq<Interval>)
    ensures Ordered(intervals) ==> SameCover(merged, intervals)
    ensures merged == [] <==> intervals == []
    ensures |merged| <= |intervals|
    ensures Ordered(intervals) ==> forall i :: 0 <= i < |merged| - 1 ==> merged[i].high + 1 < merged[i + 1].low
  {
    merged := [];
    for index := 0 to |intervals|
      invariant |merged| <= index
      invariant merged == [] <==> index == 0
      invariant Ordered(intervals) ==> SameCover(merged, intervals[..index])
      invariant Ordered(intervals) && index > 0 ==>
        merged[|merged| - 1].low <= merged[|merged| - 1].high == intervals[index - 1].high
      invariant Ordered(intervals) ==> forall i :: 0 <= i < |merged| - 1 ==> merged[i].high + 1 < merged[i + 1].low
    {
      var interval := intervals[index];
      assert intervals[..index + 1] == intervals[..index] + [interval];
      KeepInterval(intervals[..index], interval);
      var last := |merged| - 1;
      if merged != [] && merged[last].high != INT64_MAX && merged[last].high + 1 == interval.low {
        KeepInterval(merged, interval);
        if Ordered(intervals) {
          Extended(merged[..last], merged[last], interval);
          assert merged == merged[..last] + [merged[last]];
        }
        merged := merged[..last] + [Interval(merged[last].low, interval.high)];
      } else {
        KeepInterval(merged, interval);
        merged := merged + [interval];
      }
    }
    assert intervals[..|intervals|] == intervals;
  }

  lemma Extended(before: seq<Interval>, last: Interval, next: Interval)
    requires last.low <= last.high && last.high + 1 == next.low && next.low <= next.high
    ensures SameCover(before + [Interval(last.low, next.high)], before + [last] + [next])
  {
    var both := Interval(last.low, next.high);
    KeepInterval(before, both);
    KeepInterval(before, last);
    KeepInterval(before + [last], next);
    forall x
      ensures Covers(before + [both], x) <==> Covers(before + [last] + [next], x)
    {
      assert both.Has(x) <==> last.Has(x) || next.Has(x);
    }
  }

  function ListTerm(list: seq<int64>): Term
    requires list != []
  {
    if |list| == 1 then Equal(list[0]) else InList(list)
  }

  /** Single keys in lists, as many to a list as Oracle allows, and runs of keys as ranges. */
  method EmitTerms(merged: seq<Interval>) returns (terms: seq<Term>)
    ensures forall x :: SelectedBy(terms, x) <==> Covers(merged, x)
    ensures forall i :: 0 <= i < |terms| ==> terms[i].Sendable()
    ensures |terms| <= |merged| && (merged != [] ==> terms != [])
  {
    terms := [];
    var list: seq<int64> := [];
    for index := 0 to |merged|
      invariant |list| <= SqlText.MAX_IN_LIST_VALUES && |terms| + (if list == [] then 0 else 1) <= index
      invariant index > 0 ==> terms != [] || list != []
      invariant forall i :: 0 <= i < |terms| ==> terms[i].Sendable()
      invariant forall x :: SelectedBy(terms, x) || x in list <==> Covers(merged[..index], x)
    {
      var interval := merged[index];
      CoversNext(merged, index);
      if interval.low == interval.high {
        if |list| == SqlText.MAX_IN_LIST_VALUES {
          ListFlushed(terms, list);
          terms := terms + [ListTerm(list)];
          list := [];
        }
        list := list + [interval.low];
      } else {
        TermAdded(terms, Between(interval.low, interval.high));
        terms := terms + [Between(interval.low, interval.high)];
      }
    }
    assert merged[..|merged|] == merged;
    if list != [] {
      ListFlushed(terms, list);
      terms := terms + [ListTerm(list)];
    }
  }

  lemma CoversNext(intervals: seq<Interval>, index: nat)
    requires index < |intervals|
    ensures forall x :: Covers(intervals[..index + 1], x) <==> Covers(intervals[..index], x) || intervals[index].Has(x)
  {
    assert intervals[..index + 1] == intervals[..index] + [intervals[index]];
    KeepInterval(intervals[..index], intervals[index]);
  }

  lemma TermAdded(terms: seq<Term>, term: Term)
    ensures forall x :: SelectedBy(terms + [term], x) <==> SelectedBy(terms, x) || term.Selects(x)
  {
    forall x
      ensures SelectedBy(terms + [term], x) <==> SelectedBy(terms, x) || term.Selects(x)
    {
      SelectedByMore(terms, term, x);
    }
  }

  lemma ListFlushed(terms: seq<Term>, list: seq<int64>)
    requires list != []
    ensures forall x :: SelectedBy(terms + [ListTerm(list)], x) <==> SelectedBy(terms, x) || x in list
  {
    TermAdded(terms, ListTerm(list));
    forall x
      ensures ListTerm(list).Selects(x) <==> x in list
    {
    }
  }

  // ----- the whole search

  datatype KeyType = TinyInt | SmallInt | Integer | BigInt | OtherKey {
    function Low(): int64 {
      match this
      case TinyInt => -0x80
      case SmallInt => -0x8000
      case Integer => -0x8000_0000
      case _ => INT64_MIN
    }

    function High(): int64 {
      match this
      case TinyInt => 0x7F
      case SmallInt => 0x7FFF
      case Integer => 0x7FFF_FFFF
      case _ => INT64_MAX
    }

    predicate Holds(x: int) {
      Low() <= x <= High()
    }
  }

  /** No predicate, a refusal because the column's values cannot be compared with a number, or terms of which
      one must be true; `exhausted` when every interval was halved down to a point. */
  datatype Found = NoPredicate | Refused | Terms(terms: seq<Term>, exhausted: bool)

  method PrefixRangeSql(filter: RangeFilter, keyType: KeyType, numericColumn: bool, ghost keys: set<int>)
    returns (found: Found, questions: nat, ghost start: Interval, ghost level: nat, ghost before: nat)
    requires Sound(filter, keys)
    requires forall key :: key in keys ==> keyType.Holds(key)
    ensures questions <= MAX_RANGE_QUESTIONS
    ensures found == NoPredicate <==> keyType.OtherKey? || !filter(keyType.Low(), keyType.High())
    ensures found == NoPredicate ==> keyType.OtherKey? || keys == {}
    ensures found.Terms? ==> SoundTerms(found.terms, keys)
    ensures found.Terms? ==> Stopped(filter, keyType.Low(), keyType.High(), found, start, level, before)
    ensures found != NoPredicate && numericColumn ==> found.Terms?
    ensures found.Terms? && found.exhausted && Exact(filter, keys) && keys != {} ==>
      forall x :: SelectedBy(found.terms, x) <==> x in keys
    ensures found.Terms? && keys != {} ==> SentRanges(filter, keys, found, start, level)
    ensures keys != {} && !keyType.OtherKey? ==> (found.Terms? <==> numericColumn)
  {
    found, questions, start, level, before := NoPredicate, 0, Interval(0, 0), 0, 0;
    if keyType.OtherKey? {
      return;
    }
    hide SentRanges, Stopped;
    hide Exact, SelectedBy, AllPoints;
    var search := new KeyRangeSearch(filter, keyType.Low(), keyType.High(), keys);
    var any := search.MayHold(keyType.Low(), keyType.High());
    if !any {
      assert forall key :: key in keys ==> HasKey(keys, keyType.Low(), keyType.High());
      assert keys == {};
      questions := search.questions;
      return;
    }
    found, start, level, before := SearchRanges(search, numericColumn);
    questions := search.questions;
  }

  method SearchRanges(search: KeyRangeSearch, numericColumn: bool)
    returns (found: Found, ghost start: Interval, ghost level: nat, ghost before: nat)
    requires search.Valid() && search.questions == 1
    modifies search
    ensures search.questions <= MAX_RANGE_QUESTIONS
    ensures found != NoPredicate
    ensures found.Terms? ==> Stopped(search.filter, search.domainLow, search.domainHigh, found, start, level, before)
    ensures found.Terms? ==> SoundTerms(found.terms, search.keys)
    ensures found.Terms? && found.exhausted && Exact(search.filter, search.keys) && search.keys != {} ==>
      forall x :: SelectedBy(found.terms, x) <==> x in search.keys
    ensures found.Terms? && search.keys != {} ==> SentRanges(search.filter, search.keys, found, start, level)
    ensures numericColumn ==> found.Terms?
    ensures search.keys != {} && !numericColumn ==> found == Refused
  {
    hide Exact, SelectedBy, Covers, Ordered, EachHasKey, AllPoints, Level, StopsAt;
    var high := search.LargestKey();
    var low := search.SmallestKey();
    StartRefined(search, low, high);
    var whole := Interval(low, high);
    start, before := whole, search.questions;
    var intervals, exhausted;
    intervals, exhausted, level := search.Refine(whole);
    found := SendRanges(intervals, exhausted, numericColumn, search.keys);
    if exhausted && Exact(search.filter, search.keys) && search.keys != {} {
      PointsAreKeys(intervals, search.keys);
    }
  }

  /** A filter that accepts the whole domain and no part of it leaves no term, and a pair of parentheses with nothing
      in it would be sent. No filter that holds a key is one. */
  method NoTermIsLeft() returns (found: Found, questions: nat)
    ensures found.Terms? && found.terms == []
  {
    var filter: RangeFilter := (low, high) => low == INT64_MIN && high == INT64_MAX;
    ghost var start, level, before;
    found, questions, start, level, before := PrefixRangeSql(filter, BigInt, true, {});
    assert start == Interval(INT64_MAX, INT64_MIN);
    assert FloorMidpoint(start.low, start.high) == -1;
    assert Level(filter, start, 0) == [start] && !AllPoints([start]) by {
      assert [start][0] == start;
    }
    assert [start][..0] == [];
    assert Kept(filter, start) == [];
    assert NextLevel(filter, [start]) == NextLevel(filter, []) + Kept(filter, start);
    assert Level(filter, start, 1) == [];
    assert Asked(filter, start, 1) == 2 && WithinBudget(filter, start, 1, before);
  }

  /** Where the search ended: bounds of which each is a filter's answer or the end of the domain, halved as far as the
      budgets allow; no term is left just when no interval is. */
  ghost predicate Stopped(filter: RangeFilter, domainLow: int64, domainHigh: int64, found: Found, start: Interval,
                          level: nat, before: nat)
    requires found.Terms?
  {
    && (start.high == domainLow || filter(start.high, domainHigh))
    && (start.low == domainHigh || filter(domainLow, start.low))
    && before <= 129
    && StopsAt(filter, start, level, before, found.exhausted)
    && (found.terms == [] <==> Level(filter, start, level) == [])
  }

  /** What is sent for a set of keys: from bounds around them, halved as far as the budgets allow. */
  ghost predicate SentRanges(
    filter: RangeFilter, keys: set<int>, found: Found, start: Interval, level: nat)
    requires found.Terms?
  {
    && (forall key :: key in keys ==> start.Has(key))
    && (Exact(filter, keys) ==> start.low in keys && start.high in keys)
    && forall x :: SelectedBy(found.terms, x) <==> Covers(Level(filter, start, level), x)
  }

  /** Terms that select every key, few enough and short enough to send. */
  ghost predicate SoundTerms(terms: seq<Term>, keys: set<int>) {
    && (forall key :: key in keys ==> SelectedBy(terms, key))
    && (keys != {} ==> terms != [])
    && |terms| <= MAX_KEY_INTERVALS
    && forall i :: 0 <= i < |terms| ==> terms[i].Sendable()
  }

  method SendRanges(intervals: seq<Interval>, exhausted: bool, numericColumn: bool, ghost keys: set<int>) returns (found: Found)
    requires CoversAll(intervals, keys) && (keys != {} ==> Ordered(intervals))
    ensures found != NoPredicate && (found.Terms? ==> found.exhausted == exhausted)
    ensures found.Terms? && keys != {} ==>
      && found.terms != []
      && forall x :: SelectedBy(found.terms, x) <==> Covers(intervals, x)
    ensures found.Terms? ==>
      |found.terms| <= |intervals| && forall i :: 0 <= i < |found.terms| ==> found.terms[i].Sendable()
    ensures numericColumn ==> found.Terms?
    ensures found.Terms? ==> (found.terms == [] <==> intervals == [])
    ensures keys != {} && !numericColumn ==> found == Refused
  {
    if keys != {} {
      ghost var some := SomeKey(keys);
      assert Covers(intervals, some);
    }
    var merged := MergeNeighbours(intervals);
    if merged != [] && !numericColumn {
      return Refused;
    }
    var terms := EmitTerms(merged);
    return Terms(terms, exhausted);
  }

  lemma StartRefined(search: KeyRangeSearch, low: int64, high: int64)
    requires forall key :: key in search.keys ==> low <= key <= high
    requires Exact(search.filter, search.keys) && search.keys != {} ==> low in search.keys
    ensures search.Refined([Interval(low, high)])
  {
    forall key | key in search.keys
      ensures Covers([Interval(low, high)], key)
    {
      assert [Interval(low, high)][0].Has(key);
    }
    if search.keys != {} {
      var some := SomeKey(search.keys);
      assert HasKey(search.keys, low, high);
    }
  }

  lemma PointsAreKeys(intervals: seq<Interval>, keys: set<int>)
    requires AllPoints(intervals) && EachHasKey(intervals, keys) && CoversAll(intervals, keys)
    ensures forall x :: Covers(intervals, x) <==> x in keys
  {
  }
}
