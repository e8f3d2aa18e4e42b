/**
 Greedy fill: a budget is spent on a queue of demands, first come first served.
 Three loops of the settlement code have this shape: a receipt or payment over open
 accounts (allocation_engine.py:120-154), a new receivable over posted credits
 (customer_credit_memo_service.py:666-734), and the release of paid money over the
 newest allocations (purchase_return_service.py:360-409).
 */
module Greedy {
  import opened Base

  /** What the loops compute: each demand takes what is left of the budget, at most itself. */
  function Fill(budget: int, demands: seq<int>): (takes: seq<int>)
    ensures |takes| == |demands|
    decreases demands
  {
    if demands == [] then []
    else
      var t := if budget <= 0 then 0 else Min(budget, demands[0]);
      [t] + Fill(budget - t, demands[1..])
  }

  lemma FillTail(budget: int, demands: seq<int>)
    requires demands != []
    ensures Fill(budget, demands)[0] == if budget <= 0 then 0 else Min(budget, demands[0])
    ensures Fill(budget, demands)[1..] == Fill(budget - Fill(budget, demands)[0], demands[1..])
  {}

  lemma FillTailAs(budget: int, demands: seq<int>, left: int, rest: seq<int>)
    requires demands != [] && left == budget - Fill(budget, demands)[0] && rest == demands[1..]
    ensures Fill(budget, demands)[1..] == Fill(left, rest)
  {
    FillTail(budget, demands);
  }

  /** What the fill means, without saying how it is found. */
  ghost predicate IsGreedy(budget: int, demands: seq<int>, takes: seq<int>) {
    && |takes| == |demands|
    && (forall i :: 0 <= i < |takes| ==> 0 <= takes[i] <= demands[i])
    && (forall i, j :: 0 <= i < j < |takes| && takes[j] > 0 ==> takes[i] == demands[i])
    && Sum(takes) == Min(budget, Sum(demands))
  }

  lemma {:induction false} FillIsGreedy(budget: int, demands: seq<int>)
    requires budget >= 0
    requires forall i :: 0 <= i < |demands| ==> demands[i] >= 0
    ensures IsGreedy(budget, demands, Fill(budget, demands))
  {
    if demands != [] {
      var t := if budget <= 0 then 0 else Min(budget, demands[0]);
      FillIsGreedy(budget - t, demands[1..]);
      SumNonNegative(demands[1..]);
      FillTail(budget, demands);
      GreedyCons(budget, demands, t, Fill(budget - t, demands[1..]));
      assert Fill(budget, demands) == [t] + Fill(budget - t, demands[1..]);
    }
  }

  /** A greedy fill of the rest, after the first demand took all it could. */
  lemma GreedyCons(budget: int, demands: seq<int>, t: int, rest: seq<int>)
    requires demands != [] && demands[0] >= 0 && Sum(demands[1..]) >= 0
    requires t == (if budget <= 0 then 0 else Min(budget, demands[0])) && budget >= 0
    requires IsGreedy(budget - t, demands[1..], rest)
    ensures IsGreedy(budget, demands, [t] + rest)
  {
    var takes := [t] + rest;
    assert takes[1..] == rest;
    forall i | 0 <= i < |takes| ensures 0 <= takes[i] <= demands[i] {
      if i > 0 { assert takes[i] == rest[i - 1] && demands[i] == demands[1..][i - 1]; }
    }
    forall i, j | 0 <= i < j < |takes| && takes[j] > 0 ensures takes[i] == demands[i] {
      assert takes[j] == rest[j - 1];
      if i == 0 {
        SumAtLeast(rest, j - 1);
      } else {
        assert takes[i] == rest[i - 1] && demands[i] == demands[1..][i - 1];
      }
    }
  }

  lemma {:induction false} SumAtLeast(xs: seq<int>, k: nat)
    requires k < |xs| && forall i :: 0 <= i < |xs| ==> xs[i] >= 0
    ensures Sum(xs) >= xs[k]
  {
    SumNonNegative(xs[1..]);
    if k > 0 {
      SumAtLeast(xs[1..], k - 1);
    }
  }

  /** The meaning leaves no choice: it is the fill, and nothing else. */
  lemma {:induction false} GreedyIsUnique(budget: int, demands: seq<int>, takes: seq<int>)
    requires budget >= 0
    requires forall i :: 0 <= i < |demands| ==> demands[i] >= 0
    ensures IsGreedy(budget, demands, takes) <==> takes == Fill(budget, demands)
  {
    FillIsGreedy(budget, demands);
    if IsGreedy(budget, demands, takes) && demands != [] {
      var t := takes[0];
      var rest := takes[1..];
      SumNonNegative(rest);
      SumNonNegative(demands[1..]);
      if t < demands[0] {
        forall j | 0 <= j < |rest| ensures rest[j] == 0 {
          assert takes[j + 1] == rest[j];
        }
        SumOfZeros(rest);
      }
      assert t == if budget <= 0 then 0 else Min(budget, demands[0]);
      assert IsGreedy(budget - t, demands[1..], rest);
      GreedyIsUnique(budget - t, demands[1..], rest);
      assert takes == [t] + rest;
    }
  }

  lemma {:induction false} SumOfZeros(xs: seq<int>)
    requires forall i :: 0 <= i < |xs| ==> xs[i] == 0
    ensures Sum(xs) == 0
  {
    if xs != [] {
      SumOfZeros(xs[1..]);
    }
  }

  /** A fill stops for one of two reasons only, and at most one demand is met in part. */
  lemma GreedyStops(budget: int, demands: seq<int>, takes: seq<int>)
    requires budget >= 0 && IsGreedy(budget, demands, takes)
    ensures Sum(takes) == budget || takes == demands
    ensures forall i, j :: 0 <= i < j < |takes| && takes[i] < demands[i] ==> takes[j] == 0
  {
    if Sum(takes) != budget {
      SumsAgreeOnlyWhenEqual(takes, demands);
    }
  }

  lemma {:induction false} SumsAgreeOnlyWhenEqual(xs: seq<int>, ys: seq<int>)
    requires |xs| == |ys| && forall i :: 0 <= i < |xs| ==> xs[i] <= ys[i]
    ensures Sum(xs) <= Sum(ys)
    ensures Sum(xs) == Sum(ys) ==> xs == ys
  {
    if xs != [] {
      SumsAgreeOnlyWhenEqual(xs[1..], ys[1..]);
      assert xs == [xs[0]] + xs[1..] && ys == [ys[0]] + ys[1..];
    }
  }
}
