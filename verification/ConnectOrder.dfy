/**
 The order in which one connect tries its addresses (connect_plan.cpp): FAILOVER and LOAD_BALANCE across the address
 lists and within each, with a shuffle that can produce every order.
 */
module ConnectOrder {
  import opened Protocol
  import opened ConnectDescriptor

  // ----- the shuffle

  function Swapped<T>(values: seq<T>, i: nat, j: nat): (r: seq<T>)
    requires i < |values| && j < |values|
    ensures |r| == |values|
  {
    values[i := values[j]][j := values[i]]
  }

  /** The values after the places below `index` have been filled from the last down, a draw for each. */
  function Shuffled<T>(values: seq<T>, index: nat, draws: seq<nat>): (r: seq<T>)
    requires index <= |values| && |draws| == Max(index - 1, 0)
    ensures |r| == |values|
    decreases index
  {
    if index <= 1 then values
    else Shuffled(Swapped(values, index - 1, draws[0] % index), index - 1, draws[1..])
  }

  lemma SwapKeepsBag<T>(values: seq<T>, i: nat, j: nat)
    requires i < |values| && j < |values|
    ensures multiset(Swapped(values, i, j)) == multiset(values)
  {
  }

  lemma {:induction false} ShuffleIsAPermutation<T>(values: seq<T>, index: nat, draws: seq<nat>)
    requires index <= |values| && |draws| == Max(index - 1, 0)
    ensures multiset(Shuffled(values, index, draws)) == multiset(values)
    decreases index
  {
    if index > 1 {
      var next := Swapped(values, index - 1, draws[0] % index);
      SwapKeepsBag(values, index - 1, draws[0] % index);
      hide Swapped;
      ShuffleIsAPermutation(next, index - 1, draws[1..]);
    }
  }

  /** Every order of the values is the result of some draws. */
  lemma {:induction false} ShuffleReaches<T>(values: seq<T>, target: seq<T>, index: nat) returns (draws: seq<nat>)
    requires |values| == |target| && index <= |values|
    requires multiset(values[..index]) == multiset(target[..index]) && values[index..] == target[index..]
    ensures |draws| == Max(index - 1, 0) && Shuffled(values, index, draws) == target
    decreases index
  {
    if index <= 1 {
      draws := [];
      OneLeft(values, target, index);
      ShuffledOne(values, index, draws);
      hide Shuffled;
    } else {
      var j := PlaceOf(values, target, index);
      SwapReaches(values, target, index, j);
      hide Shuffled, Swapped;
      var next := Swapped(values, index - 1, j);
      assert |next| == |values|;
      var rest := ShuffleReaches(next, target, index - 1);
      draws := [j] + rest;
      SmallModulo(j, index);
      assert draws[1..] == rest;
      ShuffledByDraws(values, index, draws);
    }
  }

  lemma PlaceOf<T>(values: seq<T>, target: seq<T>, index: nat) returns (j: nat)
    requires 0 < index <= |values| == |target| && multiset(values[..index]) == multiset(target[..index])
    ensures j < index && values[j] == target[index - 1]
  {
    assert target[..index][index - 1] == target[index - 1];
    assert target[index - 1] in multiset(values[..index]);
    j :| 0 <= j < index && values[..index][j] == target[index - 1];
  }

  lemma ShuffledByDraws<T>(values: seq<T>, index: nat, draws: seq<nat>)
    requires 1 < index <= |values| && |draws| == index - 1
    ensures Shuffled(values, index, draws) == Shuffled(Swapped(values, index - 1, draws[0] % index), index - 1, draws[1..])
  {
    hide Swapped;
  }

  lemma SmallModulo(j: nat, index: nat)
    requires j < index
    ensures j % index == j
  {
  }

  lemma OneLeft<T>(values: seq<T>, target: seq<T>, index: nat)
    requires |values| == |target| && index <= |values| && index <= 1
    requires multiset(values[..index]) == multiset(target[..index]) && values[index..] == target[index..]
    ensures values == target
  {
    assert values == values[..index] + values[index..] && target == target[..index] + target[index..];
    if index == 1 {
      assert values[..1] == [values[0]] && target[..1] == [target[0]];
      assert values[0] in multiset(target[..1]);
    }
  }

  /** Once the last place holds what it should, the places below it hold the rest. */
  lemma SwapReaches<T>(values: seq<T>, target: seq<T>, index: nat, j: nat)
    requires |values| == |target| && 0 < index <= |values| && j < index
    requires multiset(values[..index]) == multiset(target[..index]) && values[index..] == target[index..]
    requires values[j] == target[index - 1]
    ensures var next := Swapped(values, index - 1, j);
      && multiset(next[..index - 1]) == multiset(target[..index - 1])
      && next[index - 1..] == target[index - 1..]
  {
    var next := Swapped(values, index - 1, j);
    TailReaches(values, target, index, j);
    SwapFront(values, index, j);
    SwapKeepsBag(values[..index], index - 1, j);
    hide Swapped;
    FrontBag(next, index);
    FrontBag(target, index);
    Cancel(multiset(next[..index - 1]), multiset(target[..index - 1]), target[index - 1]);
  }

  lemma Cancel<T>(a: multiset<T>, b: multiset<T>, value: T)
    requires a + multiset{value} == b + multiset{value}
    ensures a == b
  {
    assert a == (a + multiset{value}) - multiset{value};
    assert b == (b + multiset{value}) - multiset{value};
  }

  lemma TailReaches<T>(values: seq<T>, target: seq<T>, index: nat, j: nat)
    requires |values| == |target| && 0 < index <= |values| && j < index
    requires values[index..] == target[index..] && values[j] == target[index - 1]
    ensures Swapped(values, index - 1, j)[index - 1..] == target[index - 1..]
    ensures Swapped(values, index - 1, j)[index - 1] == target[index - 1]
  {
    var next := Swapped(values, index - 1, j);
    assert next[index - 1..] == [next[index - 1]] + values[index..];
    assert target[index - 1..] == [target[index - 1]] + target[index..];
  }

  lemma SwapFront<T>(values: seq<T>, index: nat, j: nat)
    requires 0 < index <= |values| && j < index
    ensures Swapped(values, index - 1, j)[..index] == Swapped(values[..index], index - 1, j)
  {
  }

  lemma FrontBag<T>(values: seq<T>, index: nat)
    requires 0 < index <= |values|
    ensures multiset(values[..index]) == multiset(values[..index - 1]) + multiset{values[index - 1]}
  {
    assert values[..index] == values[..index - 1] + [values[index - 1]];
  }

  // ----- random draws

  /** A source of random numbers, whatever they are. */
  class Random {
    const source: nat -> nat
    var used: nat

    constructor (source: nat -> nat)
      ensures this.source == source && used == 0
    {
      this.source, used := source, 0;
    }

    method Draw() returns (r: nat)
      modifies this
      ensures used == old(used) + 1 && r == source(old(used))
    {
      r := source(used);
      used := used + 1;
    }
  }

  function DrawsFrom(source: nat -> nat, start: nat, count: nat): (draws: seq<nat>)
    ensures |draws| == count
    decreases count
  {
    if count == 0 then [] else [source(start)] + DrawsFrom(source, start + 1, count - 1)
  }

  /** Swaps in place, from the last element down. */
  method Shuffle<T>(values: array<T>, random: Random)
    modifies values, random
    ensures values[..] == Shuffled(old(values[..]), values.Length,
                                   DrawsFrom(random.source, old(random.used), Max(values.Length - 1, 0)))
    ensures multiset(values[..]) == multiset(old(values[..]))
    ensures random.used == old(random.used) + Max(values.Length - 1, 0)
  {
    hide Shuffled;
    ghost var before := values[..];
    ghost var start := random.used;
    var index: nat := values.Length;
    ShuffledEnds(values[..], DrawsFrom(random.source, start, Max(index - 1, 0)));
    while index > 1
      invariant index <= values.Length && (values.Length > 0 ==> index > 0)
      invariant random.used == start + (values.Length - index)
      invariant Shuffled(before, values.Length, DrawsFrom(random.source, start, Max(values.Length - 1, 0)))
        == Shuffled(values[..], index, DrawsFrom(random.source, random.used, Max(index - 1, 0)))
    {
      ghost var now := values[..];
      ShuffledStep(now, index, random.source, random.used);
      var draw := random.Draw();
      var chosen := draw % index;
      values[index - 1], values[chosen] := values[chosen], values[index - 1];
      assert values[..] == Swapped(now, index - 1, chosen);
      index := index - 1;
    }
    ShuffledOne(values[..], index, DrawsFrom(random.source, random.used, Max(index - 1, 0)));
    ShuffleIsAPermutation(before, values.Length, DrawsFrom(random.source, start, Max(values.Length - 1, 0)));
  }

  lemma ShuffledEnds<T>(values: seq<T>, draws: seq<nat>)
    requires |draws| == Max(|values| - 1, 0)
    ensures |values| <= 1 ==> Shuffled(values, |values|, draws) == values
  {
  }

  lemma ShuffledOne<T>(values: seq<T>, index: nat, draws: seq<nat>)
    requires index <= |values| && index <= 1 && |draws| == 0
    ensures Shuffled(values, index, draws) == values
  {
  }

  lemma ShuffledStep<T>(values: seq<T>, index: nat, source: nat -> nat, start: nat)
    requires 1 < index <= |values|
    ensures Shuffled(values, index, DrawsFrom(source, start, index - 1))
         == Shuffled(Swapped(values, index - 1, source(start) % index), index - 1, DrawsFrom(source, start + 1, index - 2))
  {
    assert DrawsFrom(source, start, index - 1)[1..] == DrawsFrom(source, start + 1, index - 2);
  }

  // ----- the four rules

  /** The children one level tries: all of them, in order or in any order, or one of them, the first or any. */
  ghost predicate Active<T(!new)>(children: seq<T>, failover: bool, loadBalance: bool, active: seq<T>) {
    if |children| <= 1 then active == children
    else if failover then if loadBalance then multiset(active) == multiset(children) else active == children
    else if loadBalance then |active| == 1 && active[0] in children
    else active == [children[0]]
  }

  method ActiveChildren<T(!new)>(children: seq<T>, failover: bool, loadBalance: bool, random: Random)
    returns (active: seq<T>)
    modifies random
    ensures Active(children, failover, loadBalance, active)
    ensures !loadBalance || |children| <= 1 ==> random.used == old(random.used)
  {
    if |children| <= 1 {
      return children;
    }
    if failover {
      if !loadBalance {
        return children;
      }
      var result := new T[|children|](i requires 0 <= i < |children| => children[i]);
      assert result[..] == children;
      Shuffle(result, random);
      return result[..];
    }
    if loadBalance {
      var draw := random.Draw();
      return [children[draw % |children|]];
    }
    return [children[0]];
  }

  /** The addresses of one level of lists, each list by its own rules. */
  ghost predicate Ordered(lists: seq<AddressList>, order: seq<Address>)
    decreases |lists|
  {
    if lists == [] then order == []
    else
      exists cut: nat :: cut <= |order|
        && Active(lists[0].addresses, lists[0].failover, lists[0].loadBalance, order[..cut])
        && Ordered(lists[1..], order[cut..])
  }

  /** An order a connect may try its addresses in. */
  ghost predicate ConnectsInOrder(lists: seq<AddressList>, failover: bool, loadBalance: bool, order: seq<Address>) {
    exists active: seq<AddressList> :: Active(lists, failover, loadBalance, active) && Ordered(active, order)
  }

  method PlanConnectOrder(lists: seq<AddressList>, failover: bool, loadBalance: bool, random: Random)
    returns (order: seq<Address>)
    modifies random
    ensures ConnectsInOrder(lists, failover, loadBalance, order)
    ensures !loadBalance && (forall i :: 0 <= i < |lists| ==> !lists[i].loadBalance) ==> random.used == old(random.used)
  {
    hide Active;
    var active := ActiveChildren(lists, failover, loadBalance, random);
    NoNewLists(lists, failover, loadBalance, active);
    order := [];
    EmptyOrder();
    for i := 0 to |active|
      invariant Ordered(active[..i], order)
      invariant !loadBalance && (forall k :: 0 <= k < |lists| ==> !lists[k].loadBalance) ==> random.used == old(random.used)
    {
      var addresses := ActiveChildren(active[i].addresses, active[i].failover, active[i].loadBalance, random);
      OrderedNext(active[..i], active[i], order, addresses);
      assert active[..i + 1] == active[..i] + [active[i]];
      order := order + addresses;
    }
    assert active[..|active|] == active;
  }

  lemma EmptyOrder()
    ensures Ordered([], [])
  {
  }

  lemma NoNewLists(lists: seq<AddressList>, failover: bool, loadBalance: bool, active: seq<AddressList>)
    requires Active(lists, failover, loadBalance, active)
    ensures forall list :: list in active ==> list in lists
  {
    forall list | list in active ensures list in lists {
      assert list in multiset(active);
    }
  }

  lemma {:induction false} OrderedNext(lists: seq<AddressList>, list: AddressList, order: seq<Address>, more: seq<Address>)
    requires Ordered(lists, order) && Active(list.addresses, list.failover, list.loadBalance, more)
    ensures Ordered(lists + [list], order + more)
    decreases |lists|
  {
    hide Active;
    if lists == [] {
      assert (lists + [list])[1..] == [] && order + more == more && more[..|more|] == more && more[|more|..] == [];
      assert Ordered([], []);
      assert (order + more)[..|more|] == more && (order + more)[|more|..] == [];
    } else {
      var cut: nat :| cut <= |order|
        && Active(lists[0].addresses, lists[0].failover, lists[0].loadBalance, order[..cut])
        && Ordered(lists[1..], order[cut..]);
      OrderedNext(lists[1..], list, order[cut..], more);
      assert (lists + [list])[1..] == lists[1..] + [list];
      assert (order + more)[..cut] == order[..cut] && (order + more)[cut..] == order[cut..] + more;
    }
  }

  // ----- what an order leaves out, and what it does not

  lemma ActiveFits<T(!new)>(children: seq<T>, failover: bool, loadBalance: bool, active: seq<T>)
    requires Active(children, failover, loadBalance, active)
    ensures multiset(active) <= multiset(children)
    ensures failover ==> multiset(active) == multiset(children)
    ensures failover && !loadBalance ==> active == children
    ensures children != [] ==> active != []
  {
    if |children| > 1 && !failover {
      assert active == [active[0]] && active[0] in multiset(children);
    } else {
      assert |multiset(active)| == |multiset(children)|;
    }
  }

  predicate AllFailOver(lists: seq<AddressList>) {
    forall i :: 0 <= i < |lists| ==> lists[i].failover
  }

  predicate NoneBalances(lists: seq<AddressList>) {
    forall i :: 0 <= i < |lists| ==> !lists[i].loadBalance
  }

  lemma BagParts<T>(order: seq<T>, cut: nat, front: seq<T>, back: seq<T>)
    requires cut <= |order|
    requires multiset(order[..cut]) <= multiset(front) && multiset(order[cut..]) <= multiset(back)
    ensures multiset(order) <= multiset(front + back)
    ensures multiset(order[..cut]) == multiset(front) && multiset(order[cut..]) == multiset(back) ==>
      multiset(order) == multiset(front + back)
    ensures order[..cut] == front && order[cut..] == back ==> order == front + back
  {
    assert order == order[..cut] + order[cut..];
  }

  /** An order uses each address at most as often as it is configured, and with FAILOVER exactly as often. */
  lemma {:induction false} OrderedFits(lists: seq<AddressList>, order: seq<Address>)
    requires Ordered(lists, order)
    ensures multiset(order) <= multiset(Flattened(lists))
    ensures AllFailOver(lists) ==> multiset(order) == multiset(Flattened(lists))
    ensures AllFailOver(lists) && NoneBalances(lists) ==> order == Flattened(lists)
    decreases |lists|
  {
    if lists != [] {
      var first, rest := lists[0], lists[1..];
      var cut: nat :| cut <= |order| && Active(first.addresses, first.failover, first.loadBalance, order[..cut])
        && Ordered(rest, order[cut..]);
      ActiveFits(first.addresses, first.failover, first.loadBalance, order[..cut]);
      OrderedFits(rest, order[cut..]);
      hide Active, Ordered;
      assert AllFailOver(lists) ==> first.failover && AllFailOver(rest);
      assert NoneBalances(lists) ==> !first.loadBalance && NoneBalances(rest);
      hide AllFailOver, NoneBalances;
      assert Flattened(lists) == first.addresses + Flattened(rest);
      hide Flattened;
      BagParts(order, cut, first.addresses, Flattened(rest));
    }
  }

  lemma RemovedBag<T>(values: seq<T>, j: nat)
    requires j < |values|
    ensures multiset(values) == multiset(values[..j] + values[j + 1..]) + multiset{values[j]}
  {
    assert values == values[..j] + [values[j]] + values[j + 1..];
  }

  lemma FlattenedWithout(lists: seq<AddressList>, j: nat)
    requires j < |lists|
    ensures multiset(Flattened(lists))
         == multiset(lists[j].addresses) + multiset(Flattened(lists[..j] + lists[j + 1..]))
  {
    hide Flattened;
    assert lists == (lists[..j] + [lists[j]]) + lists[j + 1..];
    FlattenedJoins(lists[..j], lists[j + 1..]);
    FlattenedJoins(lists[..j] + [lists[j]], lists[j + 1..]);
    FlattenedJoins(lists[..j], [lists[j]]);
    OneFlattened(lists[j]);
  }

  lemma {:induction false} FlattenedBag(a: seq<AddressList>, b: seq<AddressList>)
    requires multiset(a) == multiset(b)
    ensures multiset(Flattened(a)) == multiset(Flattened(b))
    decreases |a|
  {
    hide Flattened;
    if a == [] {
      NothingIn(b);
    } else {
      var j, without := RemovedFrom(a, b);
      FlattenedWithout(a, 0);
      FlattenedWithout(b, j);
      assert a[..0] + a[1..] == a[1..];
      FlattenedBag(a[1..], without);
    }
  }

  lemma NothingIn<T>(values: seq<T>)
    requires multiset(values) == multiset{}
    ensures values == []
  {
    assert |multiset(values)| == |values|;
  }

  /** The first value of one list taken out of another with the same values. */
  lemma RemovedFrom<T>(a: seq<T>, b: seq<T>) returns (j: nat, without: seq<T>)
    requires a != [] && multiset(a) == multiset(b)
    ensures j < |b| && b[j] == a[0] && without == b[..j] + b[j + 1..]
    ensures multiset(a[1..]) == multiset(without)
  {
    j := FoundIn(a[0], a, b);
    without := b[..j] + b[j + 1..];
    RemovedBag(a, 0);
    assert a[..0] + a[1..] == a[1..];
    RemovedBag(b, j);
    Cancel(multiset(a[1..]), multiset(without), a[0]);
  }

  lemma FoundIn<T>(value: T, a: seq<T>, b: seq<T>) returns (j: nat)
    requires value in a && multiset(a) == multiset(b)
    ensures j < |b| && b[j] == value
  {
    assert value in multiset(b);
    j :| 0 <= j < |b| && b[j] == value;
  }

  lemma OneFlattened(list: AddressList)
    ensures Flattened([list]) == list.addresses
  {
    assert [list][1..] == [] && list.addresses + Flattened([]) == list.addresses;
  }

  /** With FAILOVER on throughout, the order has every address exactly as often as it is configured, whatever is
      drawn; with LOAD_BALANCE off as well it is the order they are written in. */
  lemma FailoverTriesEveryAddress(lists: seq<AddressList>, loadBalance: bool, order: seq<Address>)
    requires ConnectsInOrder(lists, true, loadBalance, order)
    requires AllFailOver(lists)
    ensures multiset(order) == multiset(Flattened(lists))
    ensures !loadBalance && NoneBalances(lists) ==> order == Flattened(lists)
  {
    hide Active, Ordered, Flattened;
    var active: seq<AddressList> :| Active(lists, true, loadBalance, active) && Ordered(active, order);
    ActiveFits(lists, true, loadBalance, active);
    forall i | 0 <= i < |active| ensures active[i].failover {
      assert active[i] in multiset(lists);
    }
    OrderedFits(active, order);
    FlattenedBag(active, lists);
  }
}
