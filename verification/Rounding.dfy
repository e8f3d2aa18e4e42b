/**
 Money from quantities: thousandths times cents, rounded half up to the cent, and what
 happens when the quantity of one line is credited in several pieces.
 */
module Rounding {

  /** The quantize(0.01, ROUND_HALF_UP) of a product of non-negative factors. */
  function Money(qty: nat, price: nat): (m: nat)
    ensures qty * price - 500 < 1000 * m <= qty * price + 500
  {
    (qty * price + 500) / 1000
  }

  /** The nearest cent, and the upper one of two that are equally near. */
  lemma MoneyIsNearest(qty: nat, price: nat, cents: int)
    ensures cents == Money(qty, price) <==> qty * price - 500 < 1000 * cents <= qty * price + 500
  {}

  function Total(pieces: seq<nat>): nat {
    if pieces == [] then 0 else pieces[0] + Total(pieces[1..])
  }

  function Credited(pieces: seq<nat>, price: nat): nat {
    if pieces == [] then 0 else Money(pieces[0], price) + Credited(pieces[1..], price)
  }

  lemma {:induction false} PiecewiseDrift(pieces: seq<nat>, price: nat)
    ensures Total(pieces) * price - 500 * |pieces| <= 1000 * Credited(pieces, price)
            <= Total(pieces) * price + 500 * |pieces|
    ensures pieces != [] ==> Total(pieces) * price - 500 * |pieces| < 1000 * Credited(pieces, price)
  {
    if pieces != [] {
      PiecewiseDrift(pieces[1..], price);
      assert Total(pieces) * price == pieces[0] * price + Total(pieces[1..]) * price;
    }
  }

  /** Splitting one line into n returns credits a total within n/2 cents of the whole line. */
  lemma SplitStaysWithinHalfACentEach(pieces: seq<nat>, price: nat)
    ensures -|pieces| <= 2 * (Credited(pieces, price) - Money(Total(pieces), price)) <= |pieces|
  {
    PiecewiseDrift(pieces, price);
  }

  function Halves(n: nat): (pieces: seq<nat>)
    ensures |pieces| == n
  {
    if n == 0 then [] else [500] + Halves(n - 1)
  }

  /** The bound is met for every n: n halves at one cent are credited n/2 cents too much. */
  lemma {:induction false} HalvesReachTheBound(n: nat)
    ensures Total(Halves(n)) == 500 * n && Credited(Halves(n), 1) == n
    ensures Credited(Halves(n), 1) - Money(Total(Halves(n)), 1) == n / 2
  {
    if n > 0 {
      HalvesReachTheBound(n - 1);
      assert Halves(n)[1..] == Halves(n - 1);
    }
  }
}
