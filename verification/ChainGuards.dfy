/**
 The guards of the document chain against its invariant: an operation is accepted exactly when
 the change it asks for keeps the chain in order, and then it is that change.
 */
module ChainGuards {
  import opened Base
  import opened Rounding
  import opened Sums
  import opened Chain
  import Quotations

  /** r accepts exactly when `legal` and the documents n are in order; what it returns then is n. */
  ghost predicate Exactly(r: Result<Docs, Error>, legal: bool, n: Docs) {
    (r.Ok? <==> legal && ChainInv(n)) && (r.Ok? ==> r.value == n)
  }

  ghost predicate Positive(lines: map<nat, PoLine>) {
    forall k :: k in lines ==> lines[k].qty > 0
  }

  // ---------- Sales and purchase orders ----------

  /** A sales order can be cancelled exactly while nothing live was bought for it. */
  lemma CancelOrderIsExact(d: Docs, s: nat)
    requires ChainInv(d) && s < |d.book.orders|
    ensures d.book.orders[s].quote < |d.book.quotes|
    ensures
      var order := d.book.orders[s];
      var orders := d.book.orders[s := order.(status := Quotations.Cancelled)];
      var quotes := d.book.quotes[order.quote := d.book.quotes[order.quote].(status := Quotations.Locked)];
      Exactly(Apply(d, OpBook(Quotations.OpCancel(s, false, false))), order.status == Quotations.Confirmed,
              d.(book := d.book.(orders := orders, quotes := quotes)))
  {
    assert Quotations.OrderOk(d.book, s);
    var r := OnBook(d, Quotations.OpCancel(s, false, false));
    Quotations.CancelNeverBreaks(d.book, s, HasPurchase(d, s), false);
    if r.Ok? {
      OnBookKeepsChain(d, Quotations.OpCancel(s, false, false));
    } else if p: nat :| p < |d.pos| && d.pos[p].so == s && Ordering(d.pos[p]) {
      var cancelled := d.book.orders[s := d.book.orders[s].(status := Quotations.Cancelled)];
      assert !PoOk(cancelled, d.pos[p]);
    }
  }

  lemma CreatePoIsExact(d: Docs, so: nat, lines: map<nat, PoLine>)
    requires ChainInv(d) && Positive(lines)
    ensures Exactly(Apply(d, OpCreatePo(so, lines)), true, d.(pos := d.pos + [Po(so, PoDraft, lines)]))
  {
    var po := Po(so, PoDraft, lines);
    var n := d.(pos := d.pos + [po]);
    if CreatePo(d, so, lines).Ok? { CreatePoKeepsChain(d, so, lines); }
    if ChainInv(n) {
      assert PoOk(n.book.orders, n.pos[|d.pos|]);
      assert SoQuota(n.book.orders, n.pos, so);
      forall k | k in lines ensures Ordered(d.pos, so, k) + lines[k].qty <= d.book.orders[so].lines[k].qty {
        SumAppend(d.pos, po, OrderedOn(so, k));
      }
    }
  }

  lemma SavePoIsExact(d: Docs, p: nat, lines: map<nat, PoLine>)
    requires ChainInv(d) && Positive(lines) && p < |d.pos|
    ensures Exactly(Apply(d, OpSavePo(p, lines)), d.pos[p].status == PoDraft,
                    d.(pos := d.pos[p := Po(d.pos[p].so, PoDraft, lines)]))
  {
    var po := Po(d.pos[p].so, PoDraft, lines);
    var n := d.(pos := d.pos[p := po]);
    if SavePo(d, p, lines).Ok? { SavePoKeepsChain(d, p, lines); }
    if ChainInv(n) && d.pos[p].status == PoDraft {
      assert PoOk(n.book.orders, n.pos[p]);
      assert SoQuota(n.book.orders, n.pos, po.so);
      forall k | k in lines
        ensures Ordered(Without(d.pos, p), po.so, k) + lines[k].qty <= d.book.orders[po.so].lines[k].qty
      {
        OrderedAfter(d.pos, p, po, po.so, k);
        OrderedAfter(d.pos, p, Without(d.pos, p)[p], po.so, k);
      }
    }
  }

  /** Every draft can be confirmed: the quota it is measured against again already counts it. */
  lemma ConfirmPoIsExact(d: Docs, p: nat)
    requires ChainInv(d)
    ensures Apply(d, OpConfirmPo(p)).Ok? <==> p < |d.pos| && d.pos[p].status == PoDraft
    ensures Apply(d, OpConfirmPo(p)).Ok? ==>
              Apply(d, OpConfirmPo(p)).value == d.(pos := d.pos[p := Po(d.pos[p].so, PoConfirmed, d.pos[p].lines)])
  {
    if p < |d.pos| && d.pos[p].status == PoDraft {
      var so := d.pos[p].so;
      assert PoOk(d.book.orders, d.pos[p]) && SoQuota(d.book.orders, d.pos, so);
      forall k | k in d.pos[p].lines
        ensures Ordered(Without(d.pos, p), so, k) + d.pos[p].lines[k].qty <= d.book.orders[so].lines[k].qty
      {
        OrderedAfter(d.pos, p, Without(d.pos, p)[p], so, k);
      }
    }
  }

  lemma CancelPoIsExact(d: Docs, p: nat)
    requires ChainInv(d) && p < |d.pos|
    ensures Exactly(Apply(d, OpCancelPo(p)), d.pos[p].status != PoCancelled,
                    d.(pos := d.pos[p := Po(d.pos[p].so, PoCancelled, d.pos[p].lines)]))
  {
    var n := d.(pos := d.pos[p := d.pos[p].(status := PoCancelled)]);
    if CancelPo(d, p).Ok? { SetPoKeepsChain(d, p, PoCancelled); }
    if ChainInv(n) {
      forall i | 0 <= i < |d.inbounds| && d.inbounds[i].po == p ensures !Arriving(d.inbounds[i]) {
        assert InboundOk(n.pos, n.inbounds[i]);
      }
    }
  }

  // ---------- Inbound orders ----------

  /** Every line at its price, rounded to the nearest cent. */
  function Priced(lines: Lines, prices: map<nat, PoLine>): map<nat, int> {
    map k | k in lines && k in prices :: Money(lines[k], prices[k].price)
  }

  ghost function Cost(lines: Lines, prices: map<nat, PoLine>): int {
    MapSum(Priced(lines, prices))
  }

  lemma {:induction false} AmountIsTheCost(lines: Lines, prices: map<nat, PoLine>)
    requires lines.Keys <= prices.Keys
    ensures Amount(lines, prices) == Cost(lines, prices)
  {
    assert LineAmounts(lines, prices) == Priced(lines, prices) by { SameAmounts(lines, prices); }
  }

  lemma {:induction false} SameAmounts(lines: Lines, prices: map<nat, PoLine>)
    requires lines.Keys <= prices.Keys
    ensures LineAmounts(lines, prices) == Priced(lines, prices)
  {
    var a, b := LineAmounts(lines, prices), Priced(lines, prices);
    assert a.Keys == lines.Keys;
    assert b.Keys == lines.Keys;
  }

  lemma CreateInboundIsExact(d: Docs, p: nat, lines: Lines)
    requires ChainInv(d) && p < |d.pos| && forall k :: k in lines ==> lines[k] > 0
    ensures Exactly(Apply(d, OpCreateInbound(p, lines)), true,
                    d.(inbounds := d.inbounds + [Inbound(p, InTransit, lines, Cost(lines, d.pos[p].lines))]))
  {
    if CreateInbound(d, p, lines).Ok? {
      CreateInboundKeepsChain(d, p, lines);
      AmountIsTheCost(lines, d.pos[p].lines);
    }
    var inbound := Inbound(p, InTransit, lines, Cost(lines, d.pos[p].lines));
    if ChainInv(d.(inbounds := d.inbounds + [inbound])) { LawfulInboundIsAccepted(d, inbound); }
  }

  lemma LawfulInboundIsAccepted(d: Docs, inbound: Inbound)
    requires inbound.status == InTransit && InboundInv(d.pos, d.inbounds + [inbound])
    ensures CreateInbound(d, inbound.po, inbound.lines).Ok?
  {
    var all, p, lines := d.inbounds + [inbound], inbound.po, inbound.lines;
    assert InboundOk(d.pos, all[|d.inbounds|]) && PoQuota(d.pos, all, p);
    forall k | k in lines ensures Inbounded(d.inbounds, p, k) + lines[k] <= d.pos[p].lines[k].qty {
      SumAppend(d.inbounds, inbound, InboundedOn(p, k));
    }
  }

  /** Goods in transit can be received exactly while no return is open, and taken back exactly while neither a
      return is open nor a disposition there; waiting dispositions take the goods in, and need the stock entry. */
  lemma ReceiptsAreExact(d: Docs, i: nat, stock: bool)
    requires i < |d.inbounds|
    ensures
      var r, row := Apply(d, OpReceive(i, stock)), d.inbounds[i];
      var waits := exists x :: 0 <= x < |d.disps| && d.disps[x].inbound == i && d.disps[x].status == PendingReceipt;
      && (r.Ok? <==> row.status == InTransit && (waits ==> stock)
                     && forall x :: 0 <= x < |d.reversals| && d.reversals[x].inbound == i ==> !Open(d.reversals[x]))
      && (r.Ok? ==>
            && r.value == d.(inbounds := d.inbounds[i := Inbound(row.po, Received, row.lines, row.payable)], disps := r.value.disps)
            && |r.value.disps| == |d.disps|
            && forall x :: 0 <= x < |d.disps| ==>
                 r.value.disps[x] == if d.disps[x].inbound == i && d.disps[x].status == PendingReceipt
                                     then Disposition(i, Held, d.disps[x].lines, d.disps[x].cost) else d.disps[x])
    ensures
      var r, row := Apply(d, OpUnreceive(i, stock)), d.inbounds[i];
      && (r.Ok? <==> row.status == Received && stock
                     && (forall x :: 0 <= x < |d.reversals| && d.reversals[x].inbound == i ==> !Open(d.reversals[x]))
                     && (forall x :: 0 <= x < |d.disps| && d.disps[x].inbound == i ==> d.disps[x].status == DispositionVoided))
      && (r.Ok? ==> r.value == d.(inbounds := d.inbounds[i := Inbound(row.po, InTransit, row.lines, row.payable)]))
  {
    if HasAwaiting(d, i) {
      var x :| 0 <= x < |d.disps| && Awaiting(d.disps[x], i);
      assert d.disps[x].inbound == i && d.disps[x].status == PendingReceipt;
    } else {
      forall x | 0 <= x < |d.disps| ensures !(d.disps[x].inbound == i && d.disps[x].status == PendingReceipt) {
        assert !Awaiting(d.disps[x], i);
      }
    }
  }

  /** A receipt can be undone, and undoing it restores everything, exactly when no disposition waited for the goods. */
  lemma ReceiveThenUnreceive(d: Docs, i: nat, stock: bool)
    requires Receive(d, i, stock).Ok?
    ensures
      var n := Receive(d, i, stock).value;
      && n.inbounds[i].status == Received && n.pos == d.pos && n.book == d.book && n.reversals == d.reversals
      && Receive(n, i, stock) == Err(InvalidTransition)
      && Unreceive(n, i, true) == (if HasDisposition(d, i) then Err(SourceInvalid) else Ok(d))
  {
    var n := Receive(d, i, stock).value;
    assert HasOpenReturn(n, i) == HasOpenReturn(d, i);
    if x: nat :| x < |d.disps| && d.disps[x].inbound == i && d.disps[x].status != DispositionVoided {
      assert n.disps[x].inbound == i && n.disps[x].status != DispositionVoided;
    } else {
      assert n.disps == d.disps;
      assert n.inbounds[i := n.inbounds[i].(status := InTransit)] == d.inbounds;
    }
  }

  // ---------- Returns ----------

  /** What one return holds back of a line of its inbound order. */
  function HeldBack(r: Return, i: nat, k: nat): nat {
    if r.inbound == i then QtyOf(r.lines, k) else 0
  }

  /** A pending return can be decided once. Rejection gives back exactly the units it held; approval and
      completion give back none, and complete a return or a cancellation, each its own way. */
  lemma RejectionFreesTheUnits(d: Docs, r: nat, i: nat, k: nat)
    requires r < |d.reversals| && i < |d.inbounds| && d.reversals[r].status == Pending
    ensures
      var rejected, approved := Judge(d, r, Rejected), Judge(d, r, Approved);
      && rejected.Ok? && approved.Ok?
      && |rejected.value.inbounds| == |d.inbounds| == |approved.value.inbounds|
      && Left(rejected.value, i, k) == Left(d, i, k) + HeldBack(d.reversals[r], i, k)
      && Left(approved.value, i, k) == Left(d, i, k)
      && Judge(rejected.value, r, Approved).Err? && Judge(approved.value, r, Rejected).Err?
      && var done := ConfirmReturn(approved.value, r, false, true);
      && (done.Ok? <==> !d.reversals[r].whole) && ConfirmReturn(rejected.value, r, false, true).Err?
      && (done.Ok? ==> |done.value.inbounds| == |d.inbounds| && Left(done.value, i, k) == Left(d, i, k))
  {
    var row := d.reversals[r];
    var approved := Judge(d, r, Approved).value;
    SumUpdate(d.reversals, r, row.(status := Rejected), ReversedOn(i, k));
    SumUpdate(d.reversals, r, row.(status := Approved), ReversedOn(i, k));
    SumUpdate(approved.reversals, r, row.(status := Returned), ReversedOn(i, k));
  }

  /** A new return takes its units from what is left, to the unit. */
  lemma ReturnTakesItsUnits(d: Docs, i: nat, entries: seq<Entry>, j: nat, k: nat)
    requires CreateReturn(d, i, entries, false).Ok? && j < |d.inbounds|
    ensures
      var n := CreateReturn(d, i, entries, false).value;
      && n == d.(reversals := n.reversals) && |n.reversals| == |d.reversals| + 1
      && Left(n, j, k) == Left(d, j, k) - if j == i then QtyOf(EntryLines(entries), k) else 0
  {
    var n := CreateReturn(d, i, entries, false).value;
    SumAppend(d.reversals, n.reversals[|d.reversals|], ReversedOn(j, k));
  }
}
