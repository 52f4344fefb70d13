/** The reserve: one count per piece size of bought-back pieces waiting to be
    re-purchased, and the price table used to buy them. The counts are a
    single vector shared by every player. */
module Reserve {

  /** Buy price per size, indexed by how many slots of that size are empty. */
  const Costs: seq<seq<int>> := [[1, 1, 2, 2], [2, 2, 3, 3], [3, 3, 4], [4, 5]]

  /** Number of reserve slots per size; also the starting counts. */
  const Max: seq<int> := [4, 4, 3, 2]

  /** Python-style indexing: a negative index counts from the end. */
  function PyIndex<T>(xs: seq<T>, k: int): (r: T)
    requires -|xs| <= k < |xs|
    ensures r in xs
  {
    if k < 0 then xs[|xs| + k] else xs[k]
  }

  /** Every count can be priced without an index error. */
  predicate Priceable(count: seq<int>) {
    |count| == 4 && forall s | 0 <= s < 4 :: 0 <= count[s] <= 2 * Max[s]
  }

  /** The price of the next piece of size `s`: the entry for the number of
      empty slots of that size. A count above the maximum indexes from the
      end of the row, as Python does. */
  function Cost(count: seq<int>, s: nat): (r: int)
    requires s < 4 && |count| == 4 && 1 <= count[s] <= 2 * Max[s]
    ensures r in Costs[s]
    ensures Costs[s][0] <= r <= Costs[s][|Costs[s]| - 1]
    ensures count[s] == Max[s] ==> r == Costs[s][0]
  {
    PyIndex(Costs[s], Max[s] - count[s])
  }

  /** The table has one entry per slot, so the index is in range exactly
      when between one and all slots are filled. */
  lemma CostIndexInRange(count: seq<int>, s: nat)
    requires s < 4 && |count| == 4
    ensures |Costs[s]| == Max[s]
    ensures 0 <= Max[s] - count[s] < |Costs[s]| <==> 1 <= count[s] <= Max[s]
  {
  }

  /** Each price row is non-decreasing, so emptier reserves are never cheaper. */
  lemma CostMonotone(a: seq<int>, b: seq<int>, s: nat)
    requires s < 4 && |a| == 4 && |b| == 4
    requires 1 <= b[s] <= a[s] <= Max[s]
    ensures Cost(a, s) <= Cost(b, s)
  {
  }
}
