/** Weighted draw without replacement (src/gateway/upstream.rs, `weighted_shuffle`). */
module Shuffle {
  import opened Prelude

  datatype Candidate = Candidate(id: string, baseUrl: string, weight: int)

  /** A weight of zero or less counts as one. */
  function Weight(c: Candidate): (w: int)
    ensures w >= 1
  {
    Max(c.weight, 1)
  }

  function TotalWeight(items: seq<Candidate>): (t: int)
    ensures t >= |items|
  {
    if items == [] then 0 else Weight(items[0]) + TotalWeight(items[1..])
  }

  /** The candidate in whose weight interval the draw falls. */
  function Pick(items: seq<Candidate>, draw: int): (i: nat)
    requires 0 <= draw < TotalWeight(items)
    ensures i < |items|
  {
    if draw < Weight(items[0]) then 0 else 1 + Pick(items[1..], draw - Weight(items[0]))
  }

  function Without(items: seq<Candidate>, i: nat): (r: seq<Candidate>)
    requires i < |items|
    ensures |r| == |items| - 1
  {
    items[..i] + items[i + 1..]
  }

  /** One draw per round, each below the total weight of the candidates left. */
  predicate ValidDraws(items: seq<Candidate>, draws: seq<int>)
    decreases draws
  {
    |draws| == |items|
    && (items != [] ==>
          0 <= draws[0] < TotalWeight(items) && ValidDraws(Without(items, Pick(items, draws[0])), draws[1..]))
  }

  function Shuffled(items: seq<Candidate>, draws: seq<int>): seq<Candidate>
    requires ValidDraws(items, draws)
    decreases draws
  {
    if items == [] then []
    else
      var i := Pick(items, draws[0]);
      [items[i]] + Shuffled(Without(items, i), draws[1..])
  }

  method WeightedShuffle(candidates: seq<Candidate>, draws: seq<int>) returns (result: seq<Candidate>)
    requires ValidDraws(candidates, draws)
    ensures result == Shuffled(candidates, draws)
  {
    var items := candidates;
    result := [];
    while items != []
      invariant |items| <= |draws| && ValidDraws(items, draws[|draws| - |items|..])
      invariant Shuffled(candidates, draws) == result + Shuffled(items, draws[|draws| - |items|..])
      decreases |items|
    {
      ghost var left := draws[|draws| - |items|..];
      var draw := draws[|draws| - |items|];
      var pick := draw;
      var idx := |items| - 1;
      var i := 0;
      ghost var found := false;
      while i < |items|
        invariant 0 <= i <= |items| && !found
        invariant 0 <= pick < TotalWeight(items[i..])
        invariant Pick(items, draw) == i + Pick(items[i..], pick)
      {
        assert items[i..][1..] == items[i + 1..];
        pick := pick - Weight(items[i]);
        if pick < 0 {
          idx := i;
          found := true;
          break;
        }
        i := i + 1;
      }
      assert found && idx == Pick(items, draw);
      assert left[1..] == draws[|draws| - |items| + 1..];
      result := result + [items[idx]];
      items := Without(items, idx);
    }
  }

  lemma RemoveOne(items: seq<Candidate>, i: nat)
    requires i < |items|
    ensures multiset(items) == multiset{items[i]} + multiset(Without(items, i))
  {
    assert items == items[..i] + [items[i]] + items[i + 1..];
  }

  /** The order is a permutation of the candidates, whatever the draws. */
  lemma {:induction false} ShufflePermutes(items: seq<Candidate>, draws: seq<int>)
    requires ValidDraws(items, draws)
    ensures multiset(Shuffled(items, draws)) == multiset(items)
    decreases draws
  {
    if items != [] {
      var i := Pick(items, draws[0]);
      ShufflePermutes(Without(items, i), draws[1..]);
      RemoveOne(items, i);
    }
  }

  /** In a round, exactly the draws of a candidate's own interval select it. */
  lemma {:induction false} PickInterval(items: seq<Candidate>, draw: int, i: nat)
    requires 0 <= draw < TotalWeight(items) && i < |items|
    ensures Pick(items, draw) == i <==>
              TotalWeight(items[..i]) <= draw < TotalWeight(items[..i]) + Weight(items[i])
    ensures TotalWeight(items[..i]) + Weight(items[i]) <= TotalWeight(items)
  {
    if i > 0 {
      assert items[..i][1..] == items[1..][..i - 1];
      if draw >= Weight(items[0]) {
        PickInterval(items[1..], draw - Weight(items[0]), i - 1);
      } else {
        PickInterval(items[1..], 0, i - 1);
      }
    }
  }

  /** The draws that select a candidate. */
  function DrawsFor(items: seq<Candidate>, i: nat): set<int> {
    set d | 0 <= d < TotalWeight(items) && Pick(items, d) == i
  }

  function Range(lo: int, n: nat): (r: set<int>)
    ensures |r| == n && forall d :: d in r <==> lo <= d < lo + n
  {
    if n == 0 then {} else Range(lo, n - 1) + {lo + n - 1}
  }

  /** So a candidate is drawn by exactly as many of the equally likely draws as its weight. */
  lemma DrawsPerCandidate(items: seq<Candidate>, i: nat)
    requires i < |items|
    ensures |DrawsFor(items, i)| == if items[i].weight <= 0 then 1 else items[i].weight
  {
    var lo := TotalWeight(items[..i]);
    PickInterval(items, 0, i);
    var interval := Range(lo, Weight(items[i]));
    forall d | 0 <= d < TotalWeight(items)
      ensures Pick(items, d) == i <==> d in interval
    {
      PickInterval(items, d, i);
    }
    assert DrawsFor(items, i) == interval;
  }

  lemma SameRest(items: seq<Candidate>, order: seq<Candidate>, i: nat)
    requires i < |items| && order != [] && multiset(items) == multiset(order) && items[i] == order[0]
    ensures multiset(Without(items, i)) == multiset(order[1..])
  {
    RemoveOne(items, i);
    RemoveOne(order, 0);
    assert Without(order, 0) == order[1..];
    assert multiset(Without(items, i)) == multiset(items) - multiset{items[i]};
  }

  lemma SameSize(items: seq<Candidate>, order: seq<Candidate>)
    requires multiset(items) == multiset(order)
    ensures |items| == |order|
  {
    assert |multiset(items)| == |items| && |multiset(order)| == |order|;
  }

  /** Every order of the candidates is produced by some draws. */
  lemma {:induction false} EveryOrderPossible(items: seq<Candidate>, order: seq<Candidate>) returns (draws: seq<int>)
    requires multiset(items) == multiset(order)
    ensures ValidDraws(items, draws) && Shuffled(items, draws) == order
    decreases |order|
  {
    SameSize(items, order);
    if order == [] {
      draws := [];
    } else {
      assert order[0] in multiset(items);
      var i :| 0 <= i < |items| && items[i] == order[0];
      var draw := TotalWeight(items[..i]);
      PickInterval(items, 0, i);
      PickInterval(items, draw, i);
      SameRest(items, order, i);
      var rest := EveryOrderPossible(Without(items, i), order[1..]);
      draws := [draw] + rest;
      assert draws[1..] == rest;
    }
  }
}
