/** The Nakamoto coefficient of a stake table, computed greedily. */
module Nakamoto {
  import opened Prelude
  import opened Sums

  type Operator = nat
  type Stakes = map<Operator, nat>

  /** All operators, each once, by descending stake. */
  ghost predicate Ranking(stakes: Stakes, order: seq<Operator>) {
    Distinct(order) && (forall x :: x in order <==> x in stakes) &&
    forall i, j :: 0 <= i < j < |order| ==> stakes[order[i]] >= stakes[order[j]]
  }

  predicate Known(stakes: Stakes, order: seq<Operator>) {
    forall i :: 0 <= i < |order| ==> order[i] in stakes
  }

  /** Stake of the first `k` of an order. */
  function Prefix(stakes: Stakes, order: seq<Operator>, k: nat): nat
    requires Known(stakes, order) && k <= |order|
  {
    if k == 0 then 0 else Prefix(stakes, order, k - 1) + stakes[order[k - 1]]
  }

  /** The first `k` of an order, as a set. */
  function Top(order: seq<Operator>, k: nat): set<Operator>
    requires k <= |order|
  {
    if k == 0 then {} else Top(order, k - 1) + {order[k - 1]}
  }

  lemma {:induction false} TopMembers(order: seq<Operator>, k: nat)
    requires k <= |order|
    ensures forall x :: x in Top(order, k) <==> exists i :: 0 <= i < k && order[i] == x
  {
    if k > 0 {
      TopMembers(order, k - 1);
    }
  }

  lemma NextIsNew(order: seq<Operator>, k: nat)
    requires Distinct(order) && 0 < k <= |order|
    ensures order[k - 1] !in Top(order, k - 1)
  {
    TopMembers(order, k - 1);
  }

  lemma {:induction false} TopSum(stakes: Stakes, order: seq<Operator>, k: nat)
    requires Known(stakes, order) && Distinct(order) && k <= |order|
    ensures Top(order, k) <= stakes.Keys && |Top(order, k)| == k
    ensures Sum(stakes, Top(order, k)) == Prefix(stakes, order, k)
  {
    if k > 0 {
      TopSum(stakes, order, k - 1);
      NextIsNew(order, k);
      SumAdd(stakes, Top(order, k - 1), order[k - 1]);
    }
  }

  lemma PrefixIsTotal(stakes: Stakes, order: seq<Operator>)
    requires Known(stakes, order) && Ranking(stakes, order)
    ensures Prefix(stakes, order, |order|) == Sum(stakes, stakes.Keys)
  {
    TopSum(stakes, order, |order|);
    TopMembers(order, |order|);
    assert Top(order, |order|) == stakes.Keys;
  }

  /** No `k` operators among the first `m` of a ranking outweigh the first `k`. */
  lemma {:induction false} TopIsHeaviest(stakes: Stakes, order: seq<Operator>, m: nat, ops: set<Operator>)
    requires Known(stakes, order) && m <= |order| && ops <= stakes.Keys && ops <= Top(order, m)
    requires forall i, j :: 0 <= i < j < |order| ==> stakes[order[i]] >= stakes[order[j]]
    ensures |ops| <= m && Sum(stakes, ops) <= Prefix(stakes, order, |ops|)
    decreases m
  {
    if m > 0 {
      var last := order[m - 1];
      if last in ops {
        TopIsHeaviest(stakes, order, m - 1, ops - {last});
        SumPick(stakes, ops, last);
        assert stakes[last] <= stakes[order[|ops| - 1]];
      } else {
        TopIsHeaviest(stakes, order, m - 1, ops);
      }
    }
  }

  /** Selection sort of the operators by descending stake. */
  method Sorted(stakes: Stakes) returns (order: seq<Operator>)
    ensures Ranking(stakes, order) && |order| == |stakes|
  {
    order := [];
    var rest := stakes.Keys;
    while rest != {}
      invariant rest <= stakes.Keys && |order| + |rest| == |stakes|
      invariant Distinct(order) && forall x :: x in stakes <==> x in order || x in rest
      invariant forall i :: 0 <= i < |order| ==> order[i] !in rest && order[i] in stakes
      invariant forall i, x :: 0 <= i < |order| && x in rest ==> stakes[order[i]] >= stakes[x]
      invariant forall i, j :: 0 <= i < j < |order| ==> stakes[order[i]] >= stakes[order[j]]
      decreases rest
    {
      var best := Heaviest(stakes, rest);
      order := order + [best];
      rest := rest - {best};
    }
  }

  method Heaviest(stakes: Stakes, ops: set<Operator>) returns (best: Operator)
    requires ops != {} && ops <= stakes.Keys
    ensures best in ops && forall x :: x in ops ==> stakes[x] <= stakes[best]
  {
    best :| best in ops;
    var todo := ops - {best};
    while todo != {}
      invariant todo <= ops && best in ops && forall x :: x in ops - todo ==> stakes[x] <= stakes[best]
      decreases todo
    {
      var x :| x in todo;
      if stakes[x] > stakes[best] {
        best := x;
      }
      todo := todo - {x};
    }
  }

  function Share(total: nat, thresholdBps: nat): nat {
    total * thresholdBps / 10_000
  }

  ghost function Threshold(stakes: Stakes, thresholdBps: nat): nat {
    Share(Sum(stakes, stakes.Keys), thresholdBps)
  }

  /** A nonempty set of operators with at least this much stake. */
  ghost predicate Holds(stakes: Stakes, amount: nat, ops: set<Operator>) {
    ops != {} && ops <= stakes.Keys && Sum(stakes, ops) >= amount
  }

  /** The size of a smallest such set. */
  ghost predicate Smallest(stakes: Stakes, amount: nat, n: nat) {
    (exists ops :: Holds(stakes, amount, ops) && |ops| == n) && forall ops :: Holds(stakes, amount, ops) ==> n <= |ops|
  }

  /** The size of a smallest nonempty set that reaches the threshold. */
  ghost predicate Coefficient(stakes: Stakes, thresholdBps: nat, n: nat) {
    Smallest(stakes, Threshold(stakes, thresholdBps), n)
  }

  /** Greedy accumulation is optimal. */
  lemma GreedyIsMinimal(stakes: Stakes, order: seq<Operator>, amount: nat, n: nat)
    requires Known(stakes, order) && Ranking(stakes, order) && 0 < n <= |order|
    requires Prefix(stakes, order, n) >= amount
    requires forall k :: 0 < k < n ==> Prefix(stakes, order, k) < amount
    ensures Smallest(stakes, amount, n)
  {
    TopSum(stakes, order, n);
    assert Holds(stakes, amount, Top(order, n));
    TopMembers(order, |order|);
    forall ops | Holds(stakes, amount, ops) ensures n <= |ops| {
      TopIsHeaviest(stakes, order, |order|, ops);
    }
  }

  lemma {:induction false} PrefixMonotone(stakes: Stakes, order: seq<Operator>, k: nat, m: nat)
    requires Known(stakes, order) && k <= m <= |order|
    ensures Prefix(stakes, order, k) <= Prefix(stakes, order, m)
    decreases m
  {
    if k < m {
      PrefixMonotone(stakes, order, k, m - 1);
    }
  }

  /** `n` is the first nonempty prefix that reaches the threshold, or all when none does. */
  ghost predicate Stops(stakes: Stakes, order: seq<Operator>, threshold: nat, n: nat)
    requires Known(stakes, order)
  {
    n <= |order| && (forall k :: 0 < k < n ==> Prefix(stakes, order, k) < threshold) &&
    if 0 < n && Prefix(stakes, order, n) >= threshold then true else n == |order|
  }

  method Accumulate(stakes: Stakes, order: seq<Operator>, threshold: nat) returns (n: nat)
    requires Known(stakes, order)
    ensures Stops(stakes, order, threshold, n)
  {
    var cumulative := 0;
    for i := 0 to |order|
      invariant cumulative == Prefix(stakes, order, i)
      invariant forall k :: 0 < k <= i ==> Prefix(stakes, order, k) < threshold
    {
      cumulative := cumulative + stakes[order[i]];
      if cumulative >= threshold {
        return i + 1;
      }
    }
    return |order|;
  }

  lemma StopIsCoefficient(stakes: Stakes, order: seq<Operator>, thresholdBps: nat, n: nat)
    requires Known(stakes, order) && Ranking(stakes, order) && |order| == |stakes|
    requires Sum(stakes, stakes.Keys) > 0 && Stops(stakes, order, Threshold(stakes, thresholdBps), n)
    ensures Threshold(stakes, thresholdBps) <= Sum(stakes, stakes.Keys) ==> Coefficient(stakes, thresholdBps, n)
    ensures Threshold(stakes, thresholdBps) > Sum(stakes, stakes.Keys) ==> n == |stakes|
  {
    PrefixIsTotal(stakes, order);
    PrefixMonotone(stakes, order, n, |order|);
    if Threshold(stakes, thresholdBps) <= Sum(stakes, stakes.Keys) {
      GreedyIsMinimal(stakes, order, Threshold(stakes, thresholdBps), n);
    }
  }

  /** Up to 100 percent, the threshold is within reach. */
  lemma ThresholdWithinTotal(stakes: Stakes, thresholdBps: nat)
    requires thresholdBps <= 10_000
    ensures Threshold(stakes, thresholdBps) <= Sum(stakes, stakes.Keys)
  {
    var total := Sum(stakes, stakes.Keys);
    assert total * thresholdBps <= total * 10_000;
  }

  // ----- The exact share -----

  /** Ten thousand times the stake that the share asks for. */
  ghost function Demand(stakes: Stakes, thresholdBps: nat): nat {
    Sum(stakes, stakes.Keys) * thresholdBps
  }

  /** A nonempty set of operators with at least the share itself, without rounding. */
  ghost predicate MeetsShare(stakes: Stakes, demand: nat, ops: set<Operator>) {
    ops != {} && ops <= stakes.Keys && 10_000 * Sum(stakes, ops) >= demand
  }

  /** The size of a smallest such set, which is what the coefficient is documented to be. */
  ghost predicate ExactCoefficient(stakes: Stakes, demand: nat, n: nat) {
    (exists ops :: MeetsShare(stakes, demand, ops) && |ops| == n) && forall ops :: MeetsShare(stakes, demand, ops) ==> n <= |ops|
  }

  /** The share is a whole amount of stake, or no leading group of operators holds exactly the rounded one. */
  ghost predicate RoundingHarmless(stakes: Stakes, order: seq<Operator>, demand: nat)
    requires Known(stakes, order)
  {
    demand % 10_000 == 0 || NoneHolds(stakes, order, demand / 10_000)
  }

  ghost predicate NoneHolds(stakes: Stakes, order: seq<Operator>, amount: nat)
    requires Known(stakes, order)
  {
    forall k :: 0 < k <= |order| ==> Prefix(stakes, order, k) != amount
  }

  /** The least whole amount that meets a demand. */
  function Needed(demand: nat): nat {
    demand / 10_000 + if demand % 10_000 == 0 then 0 else 1
  }

  lemma ExactIsSmallest(stakes: Stakes, demand: nat, n: nat)
    ensures ExactCoefficient(stakes, demand, n) <==> Smallest(stakes, Needed(demand), n)
  {
    forall ops ensures MeetsShare(stakes, demand, ops) <==> Holds(stakes, Needed(demand), ops) {
      if ops <= stakes.Keys {
        RoundUp(demand, Sum(stakes, ops));
      }
    }
  }

  lemma RoundUp(x: nat, s: nat)
    ensures 10_000 * s >= x <==> s >= Needed(x)
  {
  }

  /** Where the loop stops is the documented coefficient exactly if the rounding is harmless. */
  lemma StopIsExactIff(stakes: Stakes, order: seq<Operator>, demand: nat, n: nat)
    requires Known(stakes, order) && Ranking(stakes, order) && |order| == |stakes|
    requires 0 < Sum(stakes, stakes.Keys) && demand / 10_000 <= Sum(stakes, stakes.Keys)
    requires Stops(stakes, order, demand / 10_000, n)
    ensures ExactCoefficient(stakes, demand, n) <==> RoundingHarmless(stakes, order, demand)
  {
    ExactIsSmallest(stakes, demand, n);
    NeededIff(stakes, order, demand / 10_000, Needed(demand), n);
  }

  lemma NeededIff(stakes: Stakes, order: seq<Operator>, t: nat, needed: nat, n: nat)
    requires Known(stakes, order) && Ranking(stakes, order) && t <= needed <= t + 1
    requires 0 < Sum(stakes, stakes.Keys) && t <= Sum(stakes, stakes.Keys) && Stops(stakes, order, t, n)
    ensures Smallest(stakes, needed, n) <==> needed == t || NoneHolds(stakes, order, t)
  {
    StopReaches(stakes, order, t, n);
    GreedyIsMinimal(stakes, order, t, n);
    OneMoreIff(stakes, order, t, n);
  }

  /** The first group to hold an amount is also the first to hold one more, unless some group holds exactly the amount. */
  lemma OneMoreIff(stakes: Stakes, order: seq<Operator>, t: nat, n: nat)
    requires Known(stakes, order) && Ranking(stakes, order) && 0 < n <= |order|
    requires Prefix(stakes, order, n) >= t && forall k :: 0 < k < n ==> Prefix(stakes, order, k) < t
    ensures Smallest(stakes, t + 1, n) <==> NoneHolds(stakes, order, t)
  {
    if Prefix(stakes, order, n) == t {
      TooLight(stakes, order, n, t + 1);
    } else {
      GreedyIsMinimal(stakes, order, t + 1, n);
      forall k | 0 < k <= |order| ensures Prefix(stakes, order, k) != t {
        if k >= n {
          PrefixMonotone(stakes, order, n, k);
        }
      }
    }
  }

  lemma StopReaches(stakes: Stakes, order: seq<Operator>, amount: nat, n: nat)
    requires Known(stakes, order) && Ranking(stakes, order) && Stops(stakes, order, amount, n)
    requires 0 < Sum(stakes, stakes.Keys) && amount <= Sum(stakes, stakes.Keys)
    ensures 0 < n && Prefix(stakes, order, n) >= amount
  {
    PrefixIsTotal(stakes, order);
  }

  /** If the heaviest `n` operators hold too little, no `n` operators hold enough. */
  lemma TooLight(stakes: Stakes, order: seq<Operator>, n: nat, amount: nat)
    requires Known(stakes, order) && Ranking(stakes, order) && n <= |order| && Prefix(stakes, order, n) < amount
    ensures !Smallest(stakes, amount, n)
  {
    TopMembers(order, |order|);
    forall ops | Holds(stakes, amount, ops) ensures |ops| != n {
      TopIsHeaviest(stakes, order, |order|, ops);
    }
  }

  /** Stakes 33, 33, 33 and 1 at 33.33 percent: the answer is one, although no single operator has the share. */
  lemma RoundingMatters() returns (stakes: Stakes, order: seq<Operator>)
    ensures Known(stakes, order) && Ranking(stakes, order) && Sum(stakes, stakes.Keys) == 100
    ensures Coefficient(stakes, 3333, 1)
    ensures Demand(stakes, 3333) == 333_300 && forall ops :: |ops| == 1 ==> !MeetsShare(stakes, 333_300, ops)
  {
    stakes := map[0 := 33, 1 := 33, 2 := 33, 3 := 1];
    order := [0, 1, 2, 3];
    SampleTotal(stakes, order);
    GreedyIsMinimal(stakes, order, 33, 1);
    TopMembers(order, 4);
    forall ops | |ops| == 1 ensures !MeetsShare(stakes, 333_300, ops) {
      if ops <= stakes.Keys {
        TopIsHeaviest(stakes, order, 4, ops);
      }
    }
  }

  lemma SampleTotal(stakes: Stakes, order: seq<Operator>)
    requires stakes == map[0 := 33, 1 := 33, 2 := 33, 3 := 1] && order == [0, 1, 2, 3]
    ensures Ranking(stakes, order) && Known(stakes, order)
    ensures Prefix(stakes, order, 1) == 33 && Sum(stakes, stakes.Keys) == 100
  {
    assert Prefix(stakes, order, 0) == 0;
    assert Prefix(stakes, order, 1) == 33;
    assert Prefix(stakes, order, 2) == 66;
    assert Prefix(stakes, order, 3) == 99;
    assert Prefix(stakes, order, 4) == 100;
    PrefixIsTotal(stakes, order);
  }

  /**
   * Zero for an empty stake; all operators when the threshold exceeds the total
   * stake. Up to 100 percent the answer is the documented one exactly if the
   * rounding is harmless.
   */
  method NakamotoCoefficient(stakes: Stakes, thresholdBps: nat) returns (n: nat, ghost order: seq<Operator>)
    ensures Known(stakes, order) && Ranking(stakes, order)
    ensures Sum(stakes, stakes.Keys) == 0 ==> n == 0
    ensures Sum(stakes, stakes.Keys) > 0 && Threshold(stakes, thresholdBps) <= Sum(stakes, stakes.Keys) ==>
              Coefficient(stakes, thresholdBps, n)
    ensures Sum(stakes, stakes.Keys) > 0 && Threshold(stakes, thresholdBps) > Sum(stakes, stakes.Keys) ==> n == |stakes|
    ensures Sum(stakes, stakes.Keys) > 0 && thresholdBps <= 10_000 ==>
              var demand := Demand(stakes, thresholdBps);
              ExactCoefficient(stakes, demand, n) <==> RoundingHarmless(stakes, order, demand)
  {
    var sorted := Sorted(stakes);
    order := sorted;
    var total := Prefix(stakes, sorted, |sorted|);
    PrefixIsTotal(stakes, sorted);
    if total == 0 {
      return 0, order;
    }
    n := Accumulate(stakes, sorted, Share(total, thresholdBps));
    StopIsCoefficient(stakes, sorted, thresholdBps, n);
    if thresholdBps <= 10_000 {
      ThresholdWithinTotal(stakes, thresholdBps);
      StopIsExactIff(stakes, sorted, Demand(stakes, thresholdBps), n);
    }
  }
}
