/** What all the returns of one inbound order are credited, against what the order was billed. */
module CreditedValue {
  import opened Chain
  import opened Rounding
  import opened Sums
  import Reversals

  /** The total of a return that was not rejected. */
  function CreditedOn(i: nat): Return -> int {
    (r: Return) => if Reversing(r) && r.inbound == i then r.total else 0
  }

  /** The number of its lines: the pieces that were rounded. */
  function PiecesOn(i: nat): Return -> int {
    (r: Return) => if Reversing(r) && r.inbound == i then |r.lines| else 0
  }

  function PriceOf(prices: map<nat, PoLine>, k: nat): nat {
    if k in prices then prices[k].price else 0
  }

  function LineCredit(i: nat, prices: map<nat, PoLine>): (Return, nat) -> int {
    (r: Return, k: nat) =>
      if Reversing(r) && r.inbound == i && k in r.lines then Money(r.lines[k], PriceOf(prices, k)) else 0
  }

  function LinePiece(i: nat): (Return, nat) -> int {
    (r: Return, k: nat) => if Reversing(r) && r.inbound == i && k in r.lines then 1 else 0
  }

  /** Each piece of a line is rounded by half a cent at most. */
  lemma {:induction false} LineDrifts(reversals: seq<Return>, i: nat, prices: map<nat, PoLine>, k: nat)
    ensures 1000 * SumOf(reversals, At(LineCredit(i, prices), k))
              <= SumOf(reversals, ReversedOn(i, k)) * PriceOf(prices, k) + 500 * SumOf(reversals, At(LinePiece(i), k))
  {
    if reversals != [] {
      var front, r := reversals[..|reversals| - 1], reversals[|reversals| - 1];
      LineDrifts(front, i, prices, k);
      var price := PriceOf(prices, k);
      var qty := ReversedOn(i, k)(r);
      assert (SumOf(front, ReversedOn(i, k)) + qty) * price == SumOf(front, ReversedOn(i, k)) * price + qty * price;
    }
  }

  /** So within its quantity a line is credited above its bill by at most half a cent for each piece. */
  lemma LineIsBounded(reversals: seq<Return>, i: nat, prices: map<nat, PoLine>, k: nat, qty: nat)
    requires SumOf(reversals, ReversedOn(i, k)) <= qty
    ensures 2 * (SumOf(reversals, At(LineCredit(i, prices), k)) - Money(qty, PriceOf(prices, k)))
              <= SumOf(reversals, At(LinePiece(i), k))
  {
    LineDrifts(reversals, i, prices, k);
    MoreCostsMore(SumOf(reversals, ReversedOn(i, k)), qty, PriceOf(prices, k));
  }

  lemma MoreCostsMore(a: int, b: int, price: nat)
    requires a <= b
    ensures a * price <= b * price
  {}

  lemma TotalIsTheSumOfItsLines(r: Return, i: nat, keys: set<nat>, prices: map<nat, PoLine>)
    requires Reversing(r) && r.inbound == i ==> r.lines.Keys <= keys && r.total == Amount(r.lines, prices)
    ensures CreditedOn(i)(r) == MapSum(Cells(r, keys, LineCredit(i, prices)))
    ensures PiecesOn(i)(r) == MapSum(Cells(r, keys, LinePiece(i)))
  {
    var credits, pieces := Cells(r, keys, LineCredit(i, prices)), Cells(r, keys, LinePiece(i));
    if Reversing(r) && r.inbound == i {
      MapSumPadded(LineAmounts(r.lines, prices), credits);
      var ones := map k | k in r.lines :: 1;
      MapSumOnes(ones);
      assert ones.Keys == r.lines.Keys;
      MapSumPadded(ones, pieces);
    } else {
      MapSumZero(credits);
      MapSumZero(pieces);
    }
  }

  lemma {:induction false} LinesAddUp(credits: map<nat, int>, bill: map<nat, int>, pieces: map<nat, int>)
    requires credits.Keys == bill.Keys == pieces.Keys
    requires forall k :: k in credits ==> 2 * (credits[k] - bill[k]) <= pieces[k]
    ensures 2 * (MapSum(credits) - MapSum(bill)) <= MapSum(pieces)
    decreases credits
  {
    if k: nat :| k in credits {
      MapSumRemove(credits, k);
      MapSumRemove(bill, k);
      MapSumRemove(pieces, k);
      LinesAddUp(credits - {k}, bill - {k}, pieces - {k});
    } else {
      assert credits == map[] && bill == map[] && pieces == map[];
    }
  }

  function BilledAt(d: Docs, i: nat): map<nat, PoLine>
    requires i < |d.inbounds|
  {
    if d.inbounds[i].po < |d.pos| then d.pos[d.inbounds[i].po].lines else map[]
  }

  /** Totals and pieces, return by return and line by line. */
  lemma ReturnsAddUp(d: Docs, i: nat)
    requires Reversals.ReverseInv(d) && i < |d.inbounds| && d.inbounds[i].po < |d.pos|
    ensures
      var keys := d.inbounds[i].lines.Keys;
      && SumOf(d.reversals, CreditedOn(i)) == MapSum(Columns(d.reversals, keys, LineCredit(i, BilledAt(d, i))))
      && SumOf(d.reversals, PiecesOn(i)) == MapSum(Columns(d.reversals, keys, LinePiece(i)))
  {
    var keys, prices := d.inbounds[i].lines.Keys, BilledAt(d, i);
    forall r | 0 <= r < |d.reversals|
      ensures CreditedOn(i)(d.reversals[r]) == MapSum(Cells(d.reversals[r], keys, LineCredit(i, prices)))
      ensures PiecesOn(i)(d.reversals[r]) == MapSum(Cells(d.reversals[r], keys, LinePiece(i)))
    {
      assert Reversals.ReturnOk(d.pos, d.inbounds, d.reversals[r]);
      TotalIsTheSumOfItsLines(d.reversals[r], i, keys, prices);
    }
    RowsThenColumns(d.reversals, keys, LineCredit(i, prices), CreditedOn(i));
    RowsThenColumns(d.reversals, keys, LinePiece(i), PiecesOn(i));
  }

  lemma EachLineIsBounded(d: Docs, i: nat, k: nat)
    requires Reversals.ReverseInv(d) && i < |d.inbounds| && k in d.inbounds[i].lines
    ensures 2 * (SumOf(d.reversals, At(LineCredit(i, BilledAt(d, i)), k))
                 - Money(d.inbounds[i].lines[k], PriceOf(BilledAt(d, i), k)))
              <= SumOf(d.reversals, At(LinePiece(i), k))
  {
    assert Reversals.LineOnce(d.inbounds, d.reversals, d.disps, i, k);
    Reversals.DisposedIsNotNegative(d.disps, i, k);
    LineIsBounded(d.reversals, i, BilledAt(d, i), k, d.inbounds[i].lines[k]);
  }

  lemma CreditsAreBounded(d: Docs, i: nat)
    requires ChainInv(d) && Reversals.ReverseInv(d) && i < |d.inbounds|
    ensures 2 * (SumOf(d.reversals, CreditedOn(i)) - d.inbounds[i].payable) <= SumOf(d.reversals, PiecesOn(i))
  {
    var lines, prices := d.inbounds[i].lines, BilledAt(d, i);
    assert InboundOk(d.pos, d.inbounds[i]);
    ReturnsAddUp(d, i);
    var bill := LineAmounts(lines, prices);
    forall k | k in lines
      ensures 2 * (SumOf(d.reversals, At(LineCredit(i, prices), k)) - bill[k]) <= SumOf(d.reversals, At(LinePiece(i), k))
    {
      EachLineIsBounded(d, i, k);
      assert Money(lines[k], PriceOf(prices, k)) == bill[k];
    }
    LinesAddUp(Columns(d.reversals, lines.Keys, LineCredit(i, prices)), bill,
               Columns(d.reversals, lines.Keys, LinePiece(i)));
  }

  /** In every reachable state, what the returns of an inbound order are credited is above its payable by at most
      half a cent for each line of each return. */
  lemma ReturnsStayWithinHalfACentEach(ops: seq<Op>, i: nat)
    requires i < |Run(EMPTY, ops).inbounds|
    ensures
      var d := Run(EMPTY, ops);
      2 * (SumOf(d.reversals, CreditedOn(i)) - d.inbounds[i].payable) <= SumOf(d.reversals, PiecesOn(i))
  {
    Reversals.RunKeepsReverse(EMPTY, ops);
    CreditsAreBounded(Run(EMPTY, ops), i);
  }
}
