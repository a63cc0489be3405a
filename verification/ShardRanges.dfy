/**
 Cutting an interval of 64-bit keys into shards with arithmetic modulo 2^64 (oracle_parallel.cpp).
 */
module ShardRanges {
  import opened Arithmetic
  import opened Protocol

  const TWO_64 := 0x1_0000_0000_0000_0000
  const MAX_SHARDS := 256

  type uint64 = x: int | 0 <= x < TWO_64

  /** Conversions and arithmetic of the 64-bit types, which wrap. */
  function Wrap(x: int): uint64 {
    x % TWO_64
  }

  function ToSigned(x: uint64): int64 {
    if x <= INT64_MAX then x else x - TWO_64
  }

  lemma WrapOfSigned(x: int)
    requires INT64_MIN <= x <= INT64_MAX
    ensures ToSigned(Wrap(x)) == x
  {
  }

  lemma WrapSame(x: int, y: int, k: int)
    requires x == y + k * TWO_64
    ensures Wrap(x) == Wrap(y)
  {
    DivMod(y, TWO_64);
    QuotientIs(x, TWO_64, y / TWO_64 + k, y % TWO_64);
  }

  /** Wrapping early or late is the same. */
  lemma WrapSum(a: int, b: int)
    ensures Wrap(Wrap(a) + Wrap(b)) == Wrap(a + b)
    ensures Wrap(Wrap(a) + b) == Wrap(a + b)
  {
    DivMod(a, TWO_64);
    DivMod(b, TWO_64);
    WrapSame(a + b, Wrap(a) + Wrap(b), a / TWO_64 + b / TWO_64);
    WrapSame(a + b, Wrap(a) + b, a / TWO_64);
  }

  lemma WrapProduct(a: int, i: int)
    ensures Wrap(Wrap(a) * i) == Wrap(a * i)
  {
    DivMod(a, TWO_64);
    var k := a / TWO_64;
    assert a * i == Wrap(a) * i + k * i * TWO_64 by {
      assert (k * TWO_64 + Wrap(a)) * i == k * TWO_64 * i + Wrap(a) * i;
    }
    WrapSame(a * i, Wrap(a) * i, k * i);
  }

  // ----- where a shard starts

  /** How many keys are below shard `i` of `shards`, counted from the lowest. */
  function Start(count: nat, shards: nat, i: nat): nat
    requires shards > 0
  {
    MulMonotone(0, count, i);
    DivMod(count * i, shards);
    NotNegative(count * i, shards);
    count * i / shards
  }

  lemma NotNegative(value: nat, divisor: nat)
    requires divisor > 0
    ensures value / divisor >= 0
  {
    DivMod(value, divisor);
    if value / divisor < 0 {
      MulMonotone(value / divisor, -1, divisor);
    }
  }

  datatype Shares = Shares(quotient: uint64, remainder: uint64)

  /** The quotient and remainder of `span + 1` keys by `shards`, without forming `span + 1`, which need not
      fit 64 bits; the quotient wraps when there is one shard of 2^64 keys. */
  function SharesOf(span: uint64, shards: nat): (s: Shares)
    requires 0 < shards <= MAX_SHARDS
    ensures s.quotient == Wrap((span + 1) / shards) && s.remainder == (span + 1) % shards < shards
  {
    DivMod(span, shards);
    var quotient, remainder := span / shards, span % shards + 1;
    QuotientSmall(span, shards);
    if remainder >= shards then
      MulSuccessor(quotient, shards);
      QuotientIs(span + 1, shards, quotient + 1, remainder - shards);
      Shares(Wrap(quotient + 1), remainder - shards)
    else
      QuotientIs(span + 1, shards, quotient, remainder);
      Shares(quotient, remainder)
  }

  lemma QuotientSmall(value: nat, divisor: nat)
    requires divisor > 0
    ensures 0 <= value / divisor <= value
  {
    NotNegative(value, divisor);
    DivMod(value, divisor);
    MulMonotone(1, divisor, value / divisor);
  }

  /** The offset of shard `i`, each operation wrapping. */
  function Offset(shares: Shares, shards: nat, i: nat): uint64
    requires 0 < shards
  {
    Wrap(Wrap(shares.quotient * i) + Wrap(shares.remainder * i) / shards)
  }

  /** The offset is the number of keys below the shard, modulo 2^64: the second product never wraps, and what
      the first one loses is a multiple of 2^64. */
  lemma OffsetIsStart(span: uint64, shards: nat, i: nat)
    requires 0 < shards <= MAX_SHARDS && i <= shards
    ensures Offset(SharesOf(span, shards), shards, i) == Wrap(Start(span + 1, shards, i))
  {
    var count := span + 1;
    var q, r := count / shards, count % shards;
    DivMod(count, shards);
    MulMonotone(r, 256, i);
    MulMonotone(0, r, i);
    assert Wrap(r * i) == r * i;
    StartSplits(count, shards, i);
    WrapProduct(q, i);
    WrapSum(q * i, r * i / shards);
  }

  lemma StartSplits(count: nat, shards: nat, i: nat)
    requires shards > 0
    ensures Start(count, shards, i) == count / shards * i + count % shards * i / shards
  {
    var q, r := count / shards, count % shards;
    DivMod(count, shards);
    MulMonotone(0, r, i);
    DivMod(r * i, shards);
    var inner := r * i / shards;
    calc {
      count * i;
      (q * shards + r) * i;
      q * shards * i + r * i;
      { Associate(q, shards, i); }
      q * i * shards + (inner * shards + r * i % shards);
      { Distribute(q * i, inner, shards); }
      (q * i + inner) * shards + r * i % shards;
    }
    QuotientIs(count * i, shards, q * i + inner, r * i % shards);
  }

  lemma Associate(a: int, b: int, c: int)
    ensures a * b * c == a * c * b
  {
  }

  lemma Distribute(a: int, b: int, c: int)
    ensures a * c + b * c == (a + b) * c
  {
  }

  /** Consecutive starts are the quotient or one more apart, and run from none of the keys to all of them. */
  lemma StartsSpread(count: nat, shards: nat, i: nat)
    requires shards > 0 && i < shards
    ensures Start(count, shards, 0) == 0 && Start(count, shards, shards) == count
    ensures count / shards <= Start(count, shards, i + 1) - Start(count, shards, i) <= count / shards + 1
  {
    hide Start;
    DivMod(count, shards);
    NoKeysBelowFirst(count, shards);
    AllKeysBelowEnd(count, shards);
    StartSplits(count, shards, i);
    StartSplits(count, shards, i + 1);
    SplitsSpread(count / shards, count % shards, shards, i);
  }

  lemma SplitsSpread(q: int, r: nat, shards: nat, i: nat)
    requires r < shards
    ensures q <= q * (i + 1) + r * (i + 1) / shards - (q * i + r * i / shards) <= q + 1
  {
    assert q * (i + 1) == q * i + q;
    assert r * (i + 1) == r * i + r;
    MulMonotone(0, r, i);
    Between(r * i, r, shards);
  }

  lemma NoKeysBelowFirst(count: nat, shards: nat)
    requires shards > 0
    ensures Start(count, shards, 0) == 0
  {
    assert count * 0 == 0;
    QuotientIs(0, shards, 0, 0);
  }

  lemma AllKeysBelowEnd(count: nat, shards: nat)
    requires shards > 0
    ensures Start(count, shards, shards) == count
  {
    QuotientIs(count * shards, shards, count, 0);
  }

  lemma Between(value: nat, step: nat, divisor: nat)
    requires 0 <= step < divisor
    ensures value / divisor <= (value + step) / divisor <= value / divisor + 1
  {
    DivMod(value, divisor);
    var q, r := value / divisor, value % divisor;
    if r + step < divisor {
      QuotientIs(value + step, divisor, q, r + step);
    } else {
      MulSuccessor(q, divisor);
      QuotientIs(value + step, divisor, q + 1, r + step - divisor);
    }
  }

  // ----- the shards

  datatype Shard = KeyRange(begin: int64, end: int64) | NullKeys {
    /** The row with this key is in the shard. */
    predicate Reads(key: Option<real>) {
      match (this, key)
      case (KeyRange(begin, end), Some(value)) => begin as real <= value <= end as real
      case (NullKeys, None) => true
      case _ => false
    }
  }

  function CountOf(low: int64, high: int64): nat
    requires low <= high
  {
    high - low + 1
  }

  /** The range of shard `i`, as it is meant. */
  function RangeOf(low: int64, high: int64, shards: nat, i: nat): (shard: Shard)
    requires low <= high && 0 < shards <= CountOf(low, high) && i < shards
    ensures shard.KeyRange? && low <= shard.begin <= shard.end <= high
  {
    var count := CountOf(low, high);
    StartsInside(count, shards, i);
    KeyRange(low + Start(count, shards, i), low + Start(count, shards, i + 1) - 1)
  }

  lemma StartsInside(count: nat, shards: nat, i: nat)
    requires 0 < shards <= count && i < shards
    ensures 0 <= Start(count, shards, i) < Start(count, shards, i + 1) <= count
    decreases shards - i
  {
    StartsSpread(count, shards, i);
    DivMod(count, shards);
    if count / shards < 1 {
      MulMonotone(count / shards, 0, shards);
    }
    if i + 1 < shards {
      StartsInside(count, shards, i + 1);
    }
  }

  lemma RangeComputed(low: int64, high: int64, shards: nat, i: nat)
    requires low <= high && 0 < shards <= MAX_SHARDS && shards <= CountOf(low, high) && i < shards
    ensures var span := Wrap(Wrap(high) - Wrap(low));
      var shares := SharesOf(span, shards);
      KeyRange(ToSigned(Wrap(Wrap(low) + Offset(shares, shards, i))),
        ToSigned(Wrap(Wrap(Wrap(low) + Offset(shares, shards, i + 1)) - 1))) == RangeOf(low, high, shards, i)
  {
    hide Start, SharesOf, Offset, Wrap, ToSigned;
    SpanIs(low, high);
    var span := high - low;
    OffsetIsStart(span, shards, i);
    OffsetIsStart(span, shards, i + 1);
    StartsInside(span + 1, shards, i);
    EndsComputed(low, Start(span + 1, shards, i), Start(span + 1, shards, i + 1));
  }

  lemma SpanIs(low: int64, high: int64)
    requires low <= high
    ensures Wrap(Wrap(high) - Wrap(low)) == high - low
  {
    DivMod(low, TWO_64);
    DivMod(high, TWO_64);
    WrapSame(high - low, Wrap(high) - Wrap(low), high / TWO_64 - low / TWO_64);
  }

  lemma EndsComputed(low: int64, first: nat, next: nat)
    requires low + first <= INT64_MAX && 0 < next && low + next - 1 <= INT64_MAX
    ensures ToSigned(Wrap(Wrap(low) + Wrap(first))) == low + first
    ensures ToSigned(Wrap(Wrap(Wrap(low) + Wrap(next)) - 1)) == low + next - 1
  {
    WrapSum(low, first);
    WrapOfSigned(low + first);
    WrapSum(low, next);
    WrapSum(low + next, -1);
    WrapOfSigned(low + next - 1);
  }

  /** The ranges, and behind them the shard of the NULL keys when there are any. */
  ghost predicate IsPlan(plan: seq<Shard>, low: int64, high: int64, shards: nat, anyNulls: bool)
    requires low <= high && 0 < shards <= CountOf(low, high)
  {
    && |plan| == shards + (if anyNulls then 1 else 0)
    && (forall i :: 0 <= i < shards ==> plan[i] == RangeOf(low, high, shards, i))
    && (anyNulls ==> plan[shards] == NullKeys)
  }

  /** The shards of the keys from `low` to `high`, at most as many as asked for, and one for NULL keys when
      there are any. */
  method PlanShards(low: int64, high: int64, requested: nat, anyNulls: bool) returns (plan: seq<Shard>, shards: nat)
    requires low <= high && 0 < requested <= MAX_SHARDS
    ensures shards == Min(requested, CountOf(low, high)) && shards > 0
    ensures IsPlan(plan, low, high, shards, anyNulls)
  {
    hide RangeOf, Offset, Wrap, ToSigned, SharesOf, IsPlan;
    SpanIs(low, high);
    var span := Wrap(Wrap(high) - Wrap(low));
    shards := requested;
    if span < shards - 1 {
      shards := span + 1;
    }
    var shares := SharesOf(span, shards);
    plan := [];
    for shard := 0 to shards
      invariant |plan| == shard
      invariant forall i :: 0 <= i < shard ==> plan[i] == RangeOf(low, high, shards, i)
    {
      RangeComputed(low, high, shards, shard);
      var begin := ToSigned(Wrap(Wrap(low) + Offset(shares, shards, shard)));
      var end := ToSigned(Wrap(Wrap(Wrap(low) + Offset(shares, shards, shard + 1)) - 1));
      plan := plan + [KeyRange(begin, end)];
    }
    WithNulls(plan, low, high, shards);
    if anyNulls {
      plan := plan + [NullKeys];
    }
  }

  lemma WithNulls(plan: seq<Shard>, low: int64, high: int64, shards: nat)
    requires low <= high && 0 < shards == |plan| <= CountOf(low, high)
    requires forall i :: 0 <= i < shards ==> plan[i] == RangeOf(low, high, shards, i)
    ensures IsPlan(plan, low, high, shards, false) && IsPlan(plan + [NullKeys], low, high, shards, true)
  {
    hide RangeOf;
  }

  /** The ranges run on from each other, from the lowest key to the highest, and no two differ by more than
      one key in size. */
  lemma RangesPartition(low: int64, high: int64, shards: nat, i: nat)
    requires low <= high && 0 < shards <= CountOf(low, high) && i < shards
    ensures RangeOf(low, high, shards, 0).begin == low
    ensures RangeOf(low, high, shards, shards - 1).end == high
    ensures i + 1 < shards ==> RangeOf(low, high, shards, i + 1).begin == RangeOf(low, high, shards, i).end + 1
    ensures var size := RangeOf(low, high, shards, i).end - RangeOf(low, high, shards, i).begin + 1;
      CountOf(low, high) / shards <= size <= CountOf(low, high) / shards + 1
  {
    StartsSpread(CountOf(low, high), shards, i);
  }

  // ----- which rows are read

  lemma {:induction false} Later(low: int64, high: int64, shards: nat, i: nat, j: nat)
    requires low <= high && 0 < shards <= CountOf(low, high) && i < j < shards
    ensures RangeOf(low, high, shards, i).end < RangeOf(low, high, shards, j).begin
    decreases j - i
  {
    hide RangeOf;
    RangesPartition(low, high, shards, j - 1);
    if i + 1 < j {
      Later(low, high, shards, i, j - 1);
    }
  }

  /** No number is in two ranges. */
  lemma AtMostOneRange(low: int64, high: int64, shards: nat, value: real, i: nat, j: nat)
    requires low <= high && 0 < shards <= CountOf(low, high) && i < shards && j < shards
    requires RangeOf(low, high, shards, i).Reads(Some(value)) && RangeOf(low, high, shards, j).Reads(Some(value))
    ensures i == j
  {
    hide RangeOf;
    if i < j {
      Later(low, high, shards, i, j);
    } else if j < i {
      Later(low, high, shards, j, i);
    }
  }

  /** No row is read twice, whatever its key is and whether it has one. */
  lemma AtMostOneShard(plan: seq<Shard>, low: int64, high: int64, shards: nat, anyNulls: bool, key: Option<real>,
                       i: nat, j: nat)
    requires low <= high && 0 < shards <= CountOf(low, high) && IsPlan(plan, low, high, shards, anyNulls)
    requires i < |plan| && j < |plan| && plan[i].Reads(key) && plan[j].Reads(key)
    ensures i == j
  {
    hide RangeOf;
    if key.Some? {
      AtMostOneRange(low, high, shards, key.value, i, j);
    }
  }

  ghost predicate ReadBySome(low: int64, high: int64, shards: nat, value: real)
    requires low <= high && 0 < shards <= CountOf(low, high)
  {
    exists i :: 0 <= i < shards && RangeOf(low, high, shards, i).Reads(Some(value))
  }

  /** A key strictly between the end of one shard and the start of the next, which is one more. */
  ghost predicate InGap(low: int64, high: int64, shards: nat, value: real)
    requires low <= high && 0 < shards <= CountOf(low, high)
  {
    exists i :: 0 <= i < shards - 1
      && RangeOf(low, high, shards, i).end as real < value < RangeOf(low, high, shards, i).end as real + 1.0
  }

  lemma {:induction false} FindShard(low: int64, high: int64, shards: nat, value: real, i: nat)
    requires low <= high && 0 < shards <= CountOf(low, high) && i < shards
    requires RangeOf(low, high, shards, i).begin as real <= value <= high as real
    ensures ReadBySome(low, high, shards, value) || InGap(low, high, shards, value)
    decreases shards - i
  {
    hide RangeOf;
    RangesPartition(low, high, shards, i);
    var range := RangeOf(low, high, shards, i);
    if value <= range.end as real {
      assert range.Reads(Some(value));
    } else if value >= range.end as real + 1.0 {
      FindShard(low, high, shards, value, i + 1);
    }
  }

  /** A row whose key lies between the lowest and the highest is read by some shard exactly when its key is
      in no gap between two shards. The ranges are closed on both sides, so only whole keys are safe. */
  lemma ReadUnlessInGap(low: int64, high: int64, shards: nat, value: real)
    requires low <= high && 0 < shards <= CountOf(low, high)
    requires low as real <= value <= high as real
    ensures ReadBySome(low, high, shards, value) <==> !InGap(low, high, shards, value)
  {
    hide RangeOf;
    RangesPartition(low, high, shards, 0);
    FindShard(low, high, shards, value, 0);
    if ReadBySome(low, high, shards, value) && InGap(low, high, shards, value) {
      var i :| 0 <= i < shards && RangeOf(low, high, shards, i).Reads(Some(value));
      var j :| 0 <= j < shards - 1
        && RangeOf(low, high, shards, j).end as real < value < RangeOf(low, high, shards, j).end as real + 1.0;
      NotInBoth(low, high, shards, value, i, j);
    }
  }

  /** No range reads a number behind the end of another and less than one away from it. */
  lemma NotInBoth(low: int64, high: int64, shards: nat, value: real, i: nat, j: nat)
    requires low <= high && 0 < shards <= CountOf(low, high) && i < shards && j + 1 < shards
    requires var end := RangeOf(low, high, shards, j).end; end as real < value < end as real + 1.0
    ensures !RangeOf(low, high, shards, i).Reads(Some(value))
  {
    hide RangeOf;
    var end := RangeOf(low, high, shards, j).end;
    RangesPartition(low, high, shards, j);
    if i <= j {
      EndsGrow(low, high, shards, i, j);
      assert RangeOf(low, high, shards, i).end as real <= end as real;
    } else {
      BeginsGrow(low, high, shards, j + 1, i);
      assert RangeOf(low, high, shards, i).begin as real >= (end + 1) as real;
    }
  }

  lemma EndsGrow(low: int64, high: int64, shards: nat, i: nat, j: nat)
    requires low <= high && 0 < shards <= CountOf(low, high) && i <= j < shards
    ensures RangeOf(low, high, shards, i).end <= RangeOf(low, high, shards, j).end
  {
    hide RangeOf;
    if i < j {
      Later(low, high, shards, i, j);
    }
  }

  lemma BeginsGrow(low: int64, high: int64, shards: nat, i: nat, j: nat)
    requires low <= high && 0 < shards <= CountOf(low, high) && i <= j < shards
    ensures RangeOf(low, high, shards, i).begin <= RangeOf(low, high, shards, j).begin
  {
    hide RangeOf;
    if i < j {
      Later(low, high, shards, i, j);
    }
  }

  /** Every whole key is read by exactly one shard. */
  lemma WholeKeysAreRead(low: int64, high: int64, shards: nat, key: int)
    requires low <= key <= high && 0 < shards <= CountOf(low, high)
    ensures ReadBySome(low, high, shards, key as real)
  {
    hide RangeOf;
    ReadUnlessInGap(low, high, shards, key as real);
    forall i | 0 <= i < shards - 1
      ensures var end := RangeOf(low, high, shards, i).end;
        !(end as real < key as real < end as real + 1.0)
    {
      NothingBetween(RangeOf(low, high, shards, i).end, key);
    }
  }

  lemma NothingBetween(whole: int, key: int)
    ensures !(whole as real < key as real < whole as real + 1.0)
  {
    var next := whole + 1;
    assert next as real == whole as real + 1.0;
    if key <= whole {
      assert key as real <= whole as real;
    } else {
      assert key as real >= next as real;
    }
  }

  /** Only the lowest and the highest key are checked to be whole. With keys 0, 0.5 and 1 and two shards, the
      row with key 0.5 is read by neither. */
  lemma FractionalKeyMissed()
    ensures !ReadBySome(0, 1, 2, 0.5)
  {
    RangesPartition(0, 1, 2, 0);
    assert RangeOf(0, 1, 2, 0).end == 0;
    ReadUnlessInGap(0, 1, 2, 0.5);
  }
}
