/**
 What the document chain keeps in every reachable state: quantities bounded from inbound
 order to sales order, and no unit reversed twice.
 */
module Reversals {
  import opened Base
  import opened Sums
  import opened Chain
  import Quotations

  // ---------- Quantities down the chain ----------

  /** The part of an active inbound order that goes back to one sales order line, through the first n purchase orders. */
  function ArrivingOn(pos: seq<Po>, so: nat, k: nat, n: nat): Inbound -> int {
    (i: Inbound) =>
      if Arriving(i) && i.po < n && i.po < |pos| && pos[i.po].so == so then QtyOf(i.lines, k) else 0
  }

  function Through(p: nat, k: nat): Inbound -> int {
    (i: Inbound) => if Arriving(i) && i.po == p then QtyOf(i.lines, k) else 0
  }

  /** What one purchase order lets through is within its own line, and nothing if it is cancelled or a draft. */
  lemma ThroughOnePurchase(pos: seq<Po>, inbounds: seq<Inbound>, p: nat, so: nat, k: nat)
    requires InboundInv(pos, inbounds) && p < |pos| && pos[p].so == so
    ensures SumOf(inbounds, Through(p, k)) <= OrderedOn(so, k)(pos[p])
  {
    forall i | 0 <= i < |inbounds|
      ensures 0 <= Through(p, k)(inbounds[i]) <= InboundedOn(p, k)(inbounds[i])
      ensures !Ordering(pos[p]) || k !in pos[p].lines ==> Through(p, k)(inbounds[i]) == 0
    {
      assert InboundOk(pos, inbounds[i]);
    }
    if Ordering(pos[p]) && k in pos[p].lines {
      assert PoQuota(pos, inbounds, p);
      SumAtMost(inbounds, Through(p, k), InboundedOn(p, k));
    } else {
      SumZero(inbounds, Through(p, k));
    }
  }

  lemma {:induction false} ArrivingWithinOrdered(pos: seq<Po>, inbounds: seq<Inbound>, so: nat, k: nat, n: nat)
    requires InboundInv(pos, inbounds) && n <= |pos|
    ensures SumOf(inbounds, ArrivingOn(pos, so, k, n)) <= SumOf(pos[..n], OrderedOn(so, k))
  {
    if n == 0 {
      SumZero(inbounds, ArrivingOn(pos, so, k, 0));
    } else {
      var p := n - 1;
      ArrivingWithinOrdered(pos, inbounds, so, k, p);
      assert pos[..n][..p] == pos[..p];
      if pos[p].so == so {
        SumAdds(inbounds, ArrivingOn(pos, so, k, n), ArrivingOn(pos, so, k, p), Through(p, k));
        ThroughOnePurchase(pos, inbounds, p, so, k);
      } else {
        SumSame(inbounds, ArrivingOn(pos, so, k, n), ArrivingOn(pos, so, k, p));
      }
    }
  }

  /** In every reachable state an active inbound order hangs under a confirmed purchase order of a confirmed
      sales order, and for each sales order line what arrives is within what is ordered is within what was sold. */
  lemma QuantitiesAreBoundedDownTheChain(ops: seq<Op>)
    ensures
      var d := Run(EMPTY, ops);
      && (forall i :: 0 <= i < |d.inbounds| && Arriving(d.inbounds[i]) ==>
            && d.inbounds[i].po < |d.pos| && d.pos[d.inbounds[i].po].status == PoConfirmed
            && d.pos[d.inbounds[i].po].so < |d.book.orders|
            && d.book.orders[d.pos[d.inbounds[i].po].so].status == Quotations.Confirmed)
      && (forall so, k :: 0 <= so < |d.book.orders| && k in d.book.orders[so].lines ==>
            SumOf(d.inbounds, ArrivingOn(d.pos, so, k, |d.pos|)) <= Ordered(d.pos, so, k)
              <= d.book.orders[so].lines[k].qty)
  {
    var d := Run(EMPTY, ops);
    RunKeepsChain(EMPTY, ops);
    forall i | 0 <= i < |d.inbounds| ensures InboundOk(d.pos, d.inbounds[i]) {}
    forall p | 0 <= p < |d.pos| ensures PoOk(d.book.orders, d.pos[p]) {}
    forall so, k | 0 <= so < |d.book.orders| && k in d.book.orders[so].lines
      ensures SumOf(d.inbounds, ArrivingOn(d.pos, so, k, |d.pos|)) <= Ordered(d.pos, so, k)
                <= d.book.orders[so].lines[k].qty
    {
      assert SoQuota(d.book.orders, d.pos, so);
      assert d.pos[..|d.pos|] == d.pos;
      ArrivingWithinOrdered(d.pos, d.inbounds, so, k, |d.pos|);
    }
  }

  /** Cancelling looks at goods in transit or received only: it leaves no live inbound order behind
      exactly when none was closed without receipt. */
  lemma CancelPoLeavesClosedInbounds(d: Docs, p: nat)
    requires CancelPo(d, p).Ok?
    ensures
      var n := CancelPo(d, p).value;
      (forall i :: 0 <= i < |n.inbounds| && n.inbounds[i].po == p ==> n.inbounds[i].status == InCancelled) <==>
      (forall i :: 0 <= i < |d.inbounds| && d.inbounds[i].po == p ==> d.inbounds[i].status != Closed)
  {
    var n := CancelPo(d, p).value;
    forall i | 0 <= i < |d.inbounds| && d.inbounds[i].po == p
      ensures d.inbounds[i].status == InCancelled || d.inbounds[i].status == Closed
    {
      assert !Arriving(d.inbounds[i]);
    }
  }

  const SOLD := map[0 := Quotations.Line(1, 1, 1000)]

  const BOUGHT := Po(0, PoConfirmed, map[0 := PoLine(1, 1000)])
  const UNSEEN := Inbound(0, Closed, map[0 := 1000], 1)
  const PARKED := Disposition(0, ClosedWithoutReceipt, map[0 := 1000], 1)
  const SALE := Quotations.Order(0, Quotations.Confirmed, SOLD, 1)
  const SHELF := Quotations.Book([Quotations.Quote(Quotations.Converted, SOLD, 1)], [SALE], 1)

  const SHELVED := Docs(SHELF, [BOUGHT], [UNSEEN], [], [PARKED])

  /** So a sales order line can be bought a second time, on top of goods closed without receipt and still owed. */
  lemma ClosedGoodsCanBeBoughtAgain()
    ensures
      var n := CancelPo(SHELVED, 0);
      && n.Ok?
      && var again := CreatePo(n.value, 0, map[0 := PoLine(1, 1000)]);
      && again.Ok?
      && Inbounded(again.value.inbounds, 0, 0) + Ordered(again.value.pos, 0, 0) == 2000
  {
    var n := CancelPo(SHELVED, 0).value;
    var p := Po(0, PoCancelled, map[0 := PoLine(1, 1000)]);
    assert n.pos == [p];
    assert [p][..0] == [] && [SHELVED.inbounds[0]][..0] == [];
    assert SumOf([p], OrderedOn(0, 0)) == SumOf([], OrderedOn(0, 0)) + 0;
    var q := Po(0, PoDraft, map[0 := PoLine(1, 1000)]);
    SumAppend([p], q, OrderedOn(0, 0));
    assert SumOf([SHELVED.inbounds[0]], InboundedOn(0, 0)) == SumOf([], InboundedOn(0, 0)) + 1000;
  }

  // ---------- The invariant of the reversals ----------

  ghost predicate ReturnOk(pos: seq<Po>, inbounds: seq<Inbound>, r: Return) {
    && r.inbound < |inbounds| && Known(r.lines, inbounds[r.inbound].lines.Keys)
    && (forall k :: k in r.lines ==> r.lines[k] > 0)
    && inbounds[r.inbound].po < |pos| && r.total == Amount(r.lines, pos[inbounds[r.inbound].po].lines)
    && (r.whole ==> r.lines == inbounds[r.inbound].lines)
    && (Open(r) ==> inbounds[r.inbound].status == if r.whole then InTransit else Received)
    && (r.whole && r.status == Returned ==> inbounds[r.inbound].status == InCancelled)
  }

  ghost predicate DispositionOk(inbounds: seq<Inbound>, x: Disposition) {
    && x.inbound < |inbounds| && Known(x.lines, inbounds[x.inbound].lines.Keys)
    && x.status != DispositionVoided
    && inbounds[x.inbound].status == match x.status
                                     case PendingReceipt => InTransit
                                     case ClosedWithoutReceipt => Closed
                                     case _ => Received
  }

  ghost predicate Disposal(disps: seq<Disposition>, i: nat) {
    exists x :: 0 <= x < |disps| && disps[x].inbound == i
  }

  /** No unit of a line is reversed twice; once the order is disposed of, every unit is. */
  ghost predicate LineOnce(inbounds: seq<Inbound>, reversals: seq<Return>, disps: seq<Disposition>, i: nat, k: nat)
    requires i < |inbounds|
  {
    var gone := Reversed(reversals, i, k) + Disposed(disps, i, k);
    && gone <= QtyOf(inbounds[i].lines, k)
    && (Disposal(disps, i) ==> gone == QtyOf(inbounds[i].lines, k))
  }

  ghost predicate OneDisposition(reversals: seq<Return>, disps: seq<Disposition>) {
    && (forall x, y :: 0 <= x < y < |disps| ==> disps[x].inbound != disps[y].inbound)
    && (forall x, r :: 0 <= x < |disps| && 0 <= r < |reversals| && Open(reversals[r])
          ==> reversals[r].inbound != disps[x].inbound)
  }

  ghost predicate ReverseInv(d: Docs) {
    && (forall r :: 0 <= r < |d.reversals| ==> ReturnOk(d.pos, d.inbounds, d.reversals[r]))
    && (forall x :: 0 <= x < |d.disps| ==> DispositionOk(d.inbounds, d.disps[x]))
    && (forall i, k :: 0 <= i < |d.inbounds| && k in d.inbounds[i].lines ==> LineOnce(d.inbounds, d.reversals, d.disps, i, k))
    && OneDisposition(d.reversals, d.disps)
  }

  // ---------- Steps that leave the reversals alone ----------

  /** Purchase orders that have inbound orders keep their lines, and so their prices. */
  lemma PosKeepReverse(d: Docs, n: Docs)
    requires ChainInv(d) && ReverseInv(d)
    requires n.inbounds == d.inbounds && n.reversals == d.reversals && n.disps == d.disps
    requires |d.pos| <= |n.pos|
    requires forall p :: 0 <= p < |d.pos| && d.pos[p].status != PoDraft ==> n.pos[p].lines == d.pos[p].lines
    ensures ReverseInv(n)
  {
    forall r | 0 <= r < |n.reversals| ensures ReturnOk(n.pos, n.inbounds, n.reversals[r]) {
      assert ReturnOk(d.pos, d.inbounds, d.reversals[r]);
      assert InboundOk(d.pos, d.inbounds[d.reversals[r].inbound]);
    }
  }

  lemma NewInboundKeepsReverse(d: Docs, added: Inbound)
    requires ReverseInv(d) && added.po < |d.pos|
    ensures ReverseInv(d.(inbounds := d.inbounds + [added]))
  {
    var n := d.(inbounds := d.inbounds + [added]);
    forall r | 0 <= r < |n.reversals| ensures ReturnOk(n.pos, n.inbounds, n.reversals[r]) {
      assert ReturnOk(d.pos, d.inbounds, d.reversals[r]);
    }
    forall x | 0 <= x < |n.disps| ensures DispositionOk(n.inbounds, n.disps[x]) {
      assert DispositionOk(d.inbounds, d.disps[x]);
    }
    forall i, k | 0 <= i < |n.inbounds| && k in n.inbounds[i].lines
      ensures LineOnce(n.inbounds, n.reversals, n.disps, i, k)
    {
      if i < |d.inbounds| {
        assert LineOnce(d.inbounds, d.reversals, d.disps, i, k);
      } else {
        SumZero(d.reversals, ReversedOn(i, k));
        SumZero(d.disps, DisposedOn(i, k));
      }
    }
  }

  lemma CreateInboundKeepsReverse(d: Docs, p: nat, lines: Lines)
    requires ReverseInv(d) && CreateInbound(d, p, lines).Ok?
    ensures ReverseInv(CreateInbound(d, p, lines).value)
  {
    NewInboundKeepsReverse(d, Inbound(p, InTransit, lines, Amount(lines, d.pos[p].lines)));
  }

  // ---------- Steps that reverse ----------

  lemma AppendedLine(d: Docs, r: Return, i: nat, k: nat)
    requires i < |d.inbounds| && LineOnce(d.inbounds, d.reversals, d.disps, i, k)
    requires r.inbound == i ==> !Disposal(d.disps, i) && (k in r.lines ==> r.lines[k] <= Left(d, i, k))
    ensures LineOnce(d.inbounds, d.reversals + [r], d.disps, i, k)
  {
    DisposedIsNotNegative(d.disps, i, k);
    SumAppend(d.reversals, r, ReversedOn(i, k));
    if i == r.inbound { SumZero(d.disps, DisposedOn(i, k)); }
  }

  lemma AppendReturnKeepsReverse(d: Docs, r: Return)
    requires ReverseInv(d) && ReturnOk(d.pos, d.inbounds, r) && Open(r) && !Disposal(d.disps, r.inbound)
    requires forall k :: k in r.lines ==> r.lines[k] <= Left(d, r.inbound, k)
    ensures ReverseInv(d.(reversals := d.reversals + [r]))
  {
    var n := d.(reversals := d.reversals + [r]);
    forall i, k | 0 <= i < |n.inbounds| && k in n.inbounds[i].lines
      ensures LineOnce(n.inbounds, n.reversals, n.disps, i, k)
    {
      assert LineOnce(d.inbounds, d.reversals, d.disps, i, k);
      AppendedLine(d, r, i, k);
    }
  }

  lemma NoDisposalWithoutDisposition(d: Docs, i: nat)
    requires ReverseInv(d) && !HasDisposition(d, i)
    ensures !Disposal(d.disps, i)
  {
    forall x | 0 <= x < |d.disps| ensures d.disps[x].inbound != i {
      assert DispositionOk(d.inbounds, d.disps[x]);
    }
  }

  /** The payload loop accepts exactly lists of different known lines, each within what is left. */
  lemma {:induction false} AcceptedEntries(d: Docs, i: nat, entries: seq<Entry>, n: nat)
    requires i < |d.inbounds| && n <= |entries|
    ensures FirstError(d, i, entries, n).None? <==> forall m :: n <= m < |entries| ==> EntryError(d, i, entries, m).None?
    ensures FirstError(d, i, entries, n).Some? ==>
              exists m :: n <= m < |entries| && EntryError(d, i, entries, m) == FirstError(d, i, entries, n)
                          && forall j :: n <= j < m ==> EntryError(d, i, entries, j).None?
    decreases |entries| - n
  {
    if n < |entries| {
      AcceptedEntries(d, i, entries, n + 1);
    }
  }

  lemma {:induction false} EntryLinesAre(entries: seq<Entry>)
    ensures forall m :: 0 <= m < |entries| ==> entries[m].line in EntryLines(entries)
    ensures forall k :: k in EntryLines(entries) ==> Entry(k, EntryLines(entries)[k]) in entries
  {
    if entries != [] {
      var front := entries[..|entries| - 1];
      EntryLinesAre(front);
      forall m | 0 <= m < |entries| ensures entries[m].line in EntryLines(entries) {
        if m < |front| { assert front[m] == entries[m]; }
      }
      assert forall e :: e in front ==> e in entries;
    }
  }

  lemma AcceptedLines(d: Docs, i: nat, entries: seq<Entry>)
    requires i < |d.inbounds| && entries != [] && FirstError(d, i, entries, 0).None?
    requires forall n :: 0 <= n < |entries| ==> entries[n].qty > 0
    ensures
      var lines := EntryLines(entries);
      lines != map[] && forall k :: k in lines ==> k in d.inbounds[i].lines && 0 < lines[k] <= Left(d, i, k)
  {
    AcceptedEntries(d, i, entries, 0);
    EntryLinesAre(entries);
    var lines := EntryLines(entries);
    assert entries[0].line in lines;
    forall k | k in lines ensures k in d.inbounds[i].lines && 0 < lines[k] <= Left(d, i, k) {
      var m :| 0 <= m < |entries| && entries[m] == Entry(k, lines[k]);
      assert EntryError(d, i, entries, m).None?;
    }
  }

  lemma CreateReturnKeepsReverse(d: Docs, i: nat, entries: seq<Entry>, outbound: bool)
    requires ReverseInv(d) && CreateReturn(d, i, entries, outbound).Ok?
    requires InboundOk(d.pos, d.inbounds[i])
    requires forall n :: 0 <= n < |entries| ==> entries[n].qty > 0
    ensures ReverseInv(CreateReturn(d, i, entries, outbound).value)
  {
    NoDisposalWithoutDisposition(d, i);
    AcceptedLines(d, i, entries);
    var lines := EntryLines(entries);
    AppendReturnKeepsReverse(d, Return(i, false, Pending, lines, Amount(lines, PricesOf(d, i))));
  }

  lemma CreateCancellationKeepsReverse(d: Docs, i: nat, outbound: bool)
    requires ChainInv(d) && ReverseInv(d) && CreateCancellation(d, i, outbound).Ok?
    ensures ReverseInv(CreateCancellation(d, i, outbound).value)
  {
    var n := CreateCancellation(d, i, outbound).value;
    assert InboundOk(d.pos, d.inbounds[i]);
    NoDisposalWithoutDisposition(d, i);
    AppendReturnKeepsReverse(d, n.reversals[|d.reversals|]);
  }

  lemma JudgedLine(d: Docs, r: nat, status: ReturnStatus, i: nat, k: nat)
    requires r < |d.reversals| && Open(d.reversals[r]) && i < |d.inbounds|
    requires LineOnce(d.inbounds, d.reversals, d.disps, i, k)
    requires d.reversals[r].inbound == i ==> !Disposal(d.disps, i)
    ensures LineOnce(d.inbounds, SetReturn(d, r, status).reversals, d.disps, i, k)
  {
    SumUpdate(d.reversals, r, d.reversals[r].(status := status), ReversedOn(i, k));
  }

  lemma OpenReturnBarsDisposal(d: Docs, r: nat)
    requires OneDisposition(d.reversals, d.disps) && r < |d.reversals| && Open(d.reversals[r])
    ensures !Disposal(d.disps, d.reversals[r].inbound)
  {}

  lemma JudgedRows(d: Docs, r: nat, status: ReturnStatus)
    requires ReverseInv(d) && r < |d.reversals| && Open(d.reversals[r]) && status != Pending
    requires status == Returned ==> !d.reversals[r].whole
    ensures
      var n := SetReturn(d, r, status);
      && (forall x :: 0 <= x < |n.reversals| ==> ReturnOk(n.pos, n.inbounds, n.reversals[x]))
      && OneDisposition(n.reversals, n.disps)
  {
    var n := SetReturn(d, r, status);
    forall x | 0 <= x < |n.reversals| ensures ReturnOk(n.pos, n.inbounds, n.reversals[x]) {
      assert ReturnOk(d.pos, d.inbounds, d.reversals[x]);
    }
  }

  lemma SetReturnKeepsReverse(d: Docs, r: nat, status: ReturnStatus)
    requires ReverseInv(d) && r < |d.reversals| && Open(d.reversals[r]) && status != Pending
    requires status == Returned ==> !d.reversals[r].whole
    ensures ReverseInv(SetReturn(d, r, status))
  {
    var n := SetReturn(d, r, status);
    OpenReturnBarsDisposal(d, r);
    JudgedRows(d, r, status);
    forall i, k | 0 <= i < |n.inbounds| && k in n.inbounds[i].lines
      ensures LineOnce(n.inbounds, n.reversals, n.disps, i, k)
    {
      assert LineOnce(d.inbounds, d.reversals, d.disps, i, k);
      JudgedLine(d, r, status, i, k);
    }
  }

  /** A change of an inbound order's status that its returns and dispositions allow. */
  lemma SetInboundKeepsReverse(d: Docs, i: nat, status: InStatus)
    requires ReverseInv(d) && i < |d.inbounds| && Arriving(d.inbounds[i])
    requires !HasOpenReturn(d, i) && !Disposal(d.disps, i)
    ensures ReverseInv(SetInbound(d, i, status))
  {
    var n := SetInbound(d, i, status);
    forall r | 0 <= r < |n.reversals| ensures ReturnOk(n.pos, n.inbounds, n.reversals[r]) {
      assert ReturnOk(d.pos, d.inbounds, d.reversals[r]);
    }
    forall x | 0 <= x < |n.disps| ensures DispositionOk(n.inbounds, n.disps[x]) {
      assert DispositionOk(d.inbounds, d.disps[x]);
    }
    forall j, k | 0 <= j < |n.inbounds| && k in n.inbounds[j].lines
      ensures LineOnce(n.inbounds, n.reversals, n.disps, j, k)
    {
      assert LineOnce(d.inbounds, d.reversals, d.disps, j, k);
    }
  }

  lemma UnreceiveKeepsReverse(d: Docs, i: nat, stock: bool)
    requires ReverseInv(d) && Unreceive(d, i, stock).Ok?
    ensures ReverseInv(Unreceive(d, i, stock).value)
  {
    NoDisposalWithoutDisposition(d, i);
    SetInboundKeepsReverse(d, i, InTransit);
  }

  lemma ReceivedRows(d: Docs, i: nat, stock: bool)
    requires ReverseInv(d) && Receive(d, i, stock).Ok?
    ensures
      var n := Receive(d, i, stock).value;
      && (forall r :: 0 <= r < |n.reversals| ==> ReturnOk(n.pos, n.inbounds, n.reversals[r]))
      && |n.disps| == |d.disps|
      && forall x :: 0 <= x < |n.disps| ==>
           && DispositionOk(n.inbounds, n.disps[x]) && d.disps[x].status != DispositionVoided
           && n.disps[x] == d.disps[x].(status := n.disps[x].status)
  {
    var n := Receive(d, i, stock).value;
    forall r | 0 <= r < |n.reversals| ensures ReturnOk(n.pos, n.inbounds, n.reversals[r]) {
      assert ReturnOk(d.pos, d.inbounds, d.reversals[r]);
    }
    forall x | 0 <= x < |n.disps|
      ensures DispositionOk(n.inbounds, n.disps[x]) && d.disps[x].status != DispositionVoided
    {
      assert DispositionOk(d.inbounds, d.disps[x]);
    }
  }

  lemma ReceivedLines(d: Docs, i: nat, stock: bool, j: nat, k: nat)
    requires ReverseInv(d) && Receive(d, i, stock).Ok? && j < |d.inbounds| && k in d.inbounds[j].lines
    ensures var n := Receive(d, i, stock).value;
            j < |n.inbounds| && LineOnce(n.inbounds, n.reversals, n.disps, j, k)
  {
    var n := Receive(d, i, stock).value;
    ReceivedRows(d, i, stock);
    forall x | 0 <= x < |n.disps| ensures n.disps[x].status != DispositionVoided {
      assert DispositionOk(n.inbounds, n.disps[x]);
    }
    ReceiveKeepsLine(d, n, j, k);
  }

  lemma ReceivedOneDisposition(d: Docs, i: nat, stock: bool)
    requires ReverseInv(d) && Receive(d, i, stock).Ok?
    ensures var n := Receive(d, i, stock).value; OneDisposition(n.reversals, n.disps)
  {}

  lemma ReceiveKeepsReverse(d: Docs, i: nat, stock: bool)
    requires ReverseInv(d) && Receive(d, i, stock).Ok?
    ensures ReverseInv(Receive(d, i, stock).value)
  {
    var n := Receive(d, i, stock).value;
    ReceivedRows(d, i, stock);
    ReceivedOneDisposition(d, i, stock);
    forall j, k | 0 <= j < |n.inbounds| && k in n.inbounds[j].lines
      ensures LineOnce(n.inbounds, n.reversals, n.disps, j, k)
    {
      ReceivedLines(d, i, stock, j, k);
    }
  }

  lemma ReceiveKeepsLine(d: Docs, n: Docs, i: nat, k: nat)
    requires |n.inbounds| == |d.inbounds| > i && n.inbounds[i].lines == d.inbounds[i].lines && n.reversals == d.reversals
    requires |n.disps| == |d.disps|
    requires forall x :: 0 <= x < |d.disps| ==> n.disps[x] == d.disps[x].(status := n.disps[x].status)
    requires forall x :: 0 <= x < |d.disps| ==>
               d.disps[x].status != DispositionVoided && n.disps[x].status != DispositionVoided
    requires LineOnce(d.inbounds, d.reversals, d.disps, i, k)
    ensures LineOnce(n.inbounds, n.reversals, n.disps, i, k)
  {
    SameDisposedUpTo(d.disps, n.disps, i, k);
    if Disposal(n.disps, i) {
      var x :| 0 <= x < |n.disps| && n.disps[x].inbound == i;
      assert d.disps[x].inbound == i;
    }
  }

  lemma {:induction false} SameDisposedUpTo(a: seq<Disposition>, b: seq<Disposition>, i: nat, k: nat)
    requires |a| == |b|
    requires forall x :: 0 <= x < |a| ==> b[x] == a[x].(status := b[x].status)
    requires forall x :: 0 <= x < |a| ==> a[x].status != DispositionVoided && b[x].status != DispositionVoided
    ensures SumOf(b, DisposedOn(i, k)) == SumOf(a, DisposedOn(i, k))
  {
    if a != [] {
      var m := |a| - 1;
      SameDisposedUpTo(a[..m], b[..m], i, k);
    }
  }

  lemma TwoReversalsAddUp(reversals: seq<Return>, i: nat, k: nat, r: nat, other: nat)
    requires r < |reversals| && other < |reversals| && r != other
    ensures ReversedOn(i, k)(reversals[r]) + ReversedOn(i, k)(reversals[other]) <= Reversed(reversals, i, k)
  {
    SumCovers(reversals, ReversedOn(i, k));
  }

  lemma DisposedIsNotNegative(disps: seq<Disposition>, i: nat, k: nat)
    ensures Disposed(disps, i, k) >= 0
  {
    SumCovers(disps, DisposedOn(i, k));
  }

  /** Beside a cancellation that was not rejected, an inbound order has no other reversal. */
  lemma OnlyTheCancellation(d: Docs, r: nat, other: nat)
    requires ReverseInv(d) && r < |d.reversals| && d.reversals[r].whole && Reversing(d.reversals[r])
    requires other < |d.reversals| && other != r && d.reversals[other].inbound == d.reversals[r].inbound
    ensures !Reversing(d.reversals[other])
  {
    var i := d.reversals[r].inbound;
    assert ReturnOk(d.pos, d.inbounds, d.reversals[r]) && ReturnOk(d.pos, d.inbounds, d.reversals[other]);
    var k :| k in d.reversals[other].lines;
    assert LineOnce(d.inbounds, d.reversals, d.disps, i, k);
    TwoReversalsAddUp(d.reversals, i, k, r, other);
    DisposedIsNotNegative(d.disps, i, k);
  }

  lemma CancellationLeavesNothing(d: Docs, r: nat)
    requires ReverseInv(d) && r < |d.reversals| && d.reversals[r].whole && Reversing(d.reversals[r])
    ensures !Disposal(d.disps, d.reversals[r].inbound)
  {
    var i := d.reversals[r].inbound;
    assert ReturnOk(d.pos, d.inbounds, d.reversals[r]);
    forall x | 0 <= x < |d.disps| ensures d.disps[x].inbound != i {
      assert DispositionOk(d.inbounds, d.disps[x]);
    }
  }

  lemma CancelledRow(d: Docs, r: nat, x: nat)
    requires r < |d.reversals| && d.reversals[r].whole && Open(d.reversals[r])
    requires d.reversals[r].inbound < |d.inbounds| && x < |d.reversals|
    requires ReturnOk(d.pos, d.inbounds, d.reversals[x])
    requires x != r && d.reversals[x].inbound == d.reversals[r].inbound ==> !Reversing(d.reversals[x])
    ensures
      var n := SetReturn(SetInbound(d, d.reversals[r].inbound, InCancelled), r, Returned);
      ReturnOk(n.pos, n.inbounds, n.reversals[x])
  {}

  lemma CancelledRows(d: Docs, r: nat)
    requires ReverseInv(d) && r < |d.reversals| && d.reversals[r].whole && Open(d.reversals[r])
    requires d.reversals[r].inbound < |d.inbounds|
    ensures
      var n := SetReturn(SetInbound(d, d.reversals[r].inbound, InCancelled), r, Returned);
      && (forall x :: 0 <= x < |n.reversals| ==> ReturnOk(n.pos, n.inbounds, n.reversals[x]))
      && (forall x :: 0 <= x < |n.disps| ==> DispositionOk(n.inbounds, n.disps[x]))
  {
    var i := d.reversals[r].inbound;
    var n := SetReturn(SetInbound(d, i, InCancelled), r, Returned);
    CancellationLeavesNothing(d, r);
    forall x | 0 <= x < |n.reversals| ensures ReturnOk(n.pos, n.inbounds, n.reversals[x]) {
      if x != r && d.reversals[x].inbound == i { OnlyTheCancellation(d, r, x); }
      CancelledRow(d, r, x);
    }
    forall x | 0 <= x < |n.disps| ensures DispositionOk(n.inbounds, n.disps[x]) {
      assert DispositionOk(d.inbounds, d.disps[x]) && d.disps[x].inbound != i;
    }
  }

  lemma CancelledLine(d: Docs, r: nat, i: nat, j: nat, k: nat)
    requires r < |d.reversals| && Open(d.reversals[r]) && i < |d.inbounds| && j < |d.inbounds|
    requires LineOnce(d.inbounds, d.reversals, d.disps, j, k)
    ensures
      var n := SetReturn(SetInbound(d, i, InCancelled), r, Returned);
      LineOnce(n.inbounds, n.reversals, n.disps, j, k)
  {
    SumUpdate(d.reversals, r, d.reversals[r].(status := Returned), ReversedOn(j, k));
  }

  lemma ConfirmCancellationKeepsReverse(d: Docs, r: nat, outbound: bool)
    requires ReverseInv(d) && ConfirmCancellation(d, r, outbound).Ok?
    ensures ReverseInv(ConfirmCancellation(d, r, outbound).value)
  {
    var n := ConfirmCancellation(d, r, outbound).value;
    CancelledRows(d, r);
    forall j, k | 0 <= j < |n.inbounds| && k in n.inbounds[j].lines
      ensures LineOnce(n.inbounds, n.reversals, n.disps, j, k)
    {
      assert k in d.inbounds[j].lines;
      CancelledLine(d, r, d.reversals[r].inbound, j, k);
    }
  }

  /** A disposition that takes what is left of a line leaves nothing of it. */
  lemma DisposedLine(d: Docs, x: Disposition, i: nat, k: nat)
    requires i < |d.inbounds| && LineOnce(d.inbounds, d.reversals, d.disps, i, k)
    requires x.status != DispositionVoided
    requires i == x.inbound ==> k in d.inbounds[i].lines && !Disposal(d.disps, i) && x.lines == LeftLines(d, i)
    ensures LineOnce(d.inbounds, d.reversals, d.disps + [x], i, k)
  {
    SumAppend(d.disps, x, DisposedOn(i, k));
    if i == x.inbound {
      SumZero(d.disps, DisposedOn(i, k));
    } else if Disposal(d.disps + [x], i) {
      var y :| 0 <= y < |d.disps + [x]| && (d.disps + [x])[y].inbound == i;
      assert d.disps[y].inbound == i;
    }
  }

  lemma AppendDispositionKeepsReverse(d: Docs, x: Disposition)
    requires ReverseInv(d) && x.inbound < |d.inbounds| && !HasOpenReturn(d, x.inbound) && !Disposal(d.disps, x.inbound)
    requires DispositionOk(d.inbounds, x) && x.lines == LeftLines(d, x.inbound)
    ensures ReverseInv(d.(disps := d.disps + [x]))
  {
    var n := d.(disps := d.disps + [x]);
    forall j, k | 0 <= j < |n.inbounds| && k in n.inbounds[j].lines
      ensures LineOnce(n.inbounds, n.reversals, n.disps, j, k)
    {
      DisposedLine(d, x, j, k);
    }
  }

  lemma StatusKeepsLeftLines(d: Docs, i: nat, status: InStatus)
    requires i < |d.inbounds|
    ensures LeftLines(SetInbound(d, i, status), i) == LeftLines(d, i)
  {
    forall k ensures Left(SetInbound(d, i, status), i, k) == Left(d, i, k) {}
  }

  /** Closing an inbound order without receipt, and disposing of all that was left of it. */
  lemma CloseKeepsReverse(d: Docs, x: Disposition)
    requires ReverseInv(d) && x.inbound < |d.inbounds| && Arriving(d.inbounds[x.inbound])
    requires !HasOpenReturn(d, x.inbound) && !Disposal(d.disps, x.inbound)
    requires x.status == ClosedWithoutReceipt && x.lines == LeftLines(d, x.inbound) && x.lines != map[]
    ensures ReverseInv(SetInbound(d.(disps := d.disps + [x]), x.inbound, Closed))
  {
    var c := SetInbound(d, x.inbound, Closed);
    SetInboundKeepsReverse(d, x.inbound, Closed);
    StatusKeepsLeftLines(d, x.inbound, Closed);
    AppendDispositionKeepsReverse(c, x);
    assert c.(disps := c.disps + [x]) == SetInbound(d.(disps := d.disps + [x]), x.inbound, Closed);
  }

  lemma DisposeKeepsReverse(d: Docs, i: nat, handling: Handling, outbound: bool, stock: bool)
    requires ReverseInv(d) && Dispose(d, i, handling, outbound, stock).Ok?
    ensures ReverseInv(Dispose(d, i, handling, outbound, stock).value)
  {
    NoDisposalWithoutDisposition(d, i);
    var received := d.inbounds[i].status == Received;
    var lines := LeftLines(d, i);
    var x := Disposition(i, DispositionState(received, handling), lines, Amount(lines, PricesOf(d, i)));
    if x.status == ClosedWithoutReceipt {
      CloseKeepsReverse(d, x);
    } else {
      AppendDispositionKeepsReverse(d, x);
    }
  }

  /** Purchase orders that have left the draft state keep their lines. */
  lemma PurchaseStepKeepsLines(d: Docs, op: Op)
    requires OnPurchases(op) && Apply(d, op).Ok?
    ensures
      var n := Apply(d, op).value;
      && n.inbounds == d.inbounds && n.reversals == d.reversals && n.disps == d.disps && |d.pos| <= |n.pos|
      && forall p :: 0 <= p < |d.pos| && d.pos[p].status != PoDraft ==> n.pos[p].lines == d.pos[p].lines
  {}

  lemma InboundStepKeepsReverse(d: Docs, op: Op)
    requires ReverseInv(d) && OnInbounds(op) && Apply(d, op).Ok?
    ensures ReverseInv(Apply(d, op).value)
  {
    match op
    case OpCreateInbound(p, lines) => CreateInboundKeepsReverse(d, p, lines);
    case OpReceive(i, stock) => ReceiveKeepsReverse(d, i, stock);
    case OpUnreceive(i, stock) => UnreceiveKeepsReverse(d, i, stock);
  }

  lemma ReturnStepKeepsReverse(d: Docs, op: Op)
    requires ChainInv(d) && ReverseInv(d) && Acceptable(op) && Apply(d, op).Ok?
    requires !OnPurchases(op) && !OnInbounds(op) && !op.OpDispose?
    ensures ReverseInv(Apply(d, op).value)
  {
    match op
    case OpCreateReturn(i, entries, outbound) =>
      assert InboundOk(d.pos, d.inbounds[i]);
      CreateReturnKeepsReverse(d, i, entries, outbound);
    case OpCreateCancellation(i, outbound) => CreateCancellationKeepsReverse(d, i, outbound);
    case OpApprove(r) => SetReturnKeepsReverse(d, r, Approved);
    case OpReject(r) => SetReturnKeepsReverse(d, r, Rejected);
    case OpConfirmReturn(r, _, _) => SetReturnKeepsReverse(d, r, Returned);
    case OpConfirmCancellation(r, outbound) => ConfirmCancellationKeepsReverse(d, r, outbound);
  }

  lemma StepKeepsReverse(d: Docs, op: Op)
    requires ChainInv(d) && ReverseInv(d)
    ensures ReverseInv(Step(d, op))
  {
    if Acceptable(op) && Apply(d, op).Ok? {
      if OnPurchases(op) {
        PurchaseStepKeepsLines(d, op);
        PosKeepReverse(d, Apply(d, op).value);
      } else if OnInbounds(op) {
        InboundStepKeepsReverse(d, op);
      } else if op.OpDispose? {
        DisposeKeepsReverse(d, op.i, op.handling, op.outbound, op.stock);
      } else {
        ReturnStepKeepsReverse(d, op);
      }
    }
  }

  lemma {:induction false} RunKeepsReverse(d: Docs, ops: seq<Op>)
    requires ChainInv(d) && ReverseInv(d)
    ensures ChainInv(Run(d, ops)) && ReverseInv(Run(d, ops))
    decreases |ops|
  {
    if ops != [] {
      StepKeepsChain(d, ops[0]);
      StepKeepsReverse(d, ops[0]);
      RunKeepsReverse(Step(d, ops[0]), ops[1..]);
    }
  }

  /** In every reachable state, for each inbound line: pending, approved and returned units plus disposed units
      are within what came in, and make up all of it once the order is disposed of. */
  lemma NoUnitIsReversedTwice(ops: seq<Op>, i: nat, k: nat)
    requires i < |Run(EMPTY, ops).inbounds| && k in Run(EMPTY, ops).inbounds[i].lines
    ensures
      var d := Run(EMPTY, ops);
      && Reversed(d.reversals, i, k) + Disposed(d.disps, i, k) <= d.inbounds[i].lines[k]
      && (HasDisposition(d, i) ==> Reversed(d.reversals, i, k) + Disposed(d.disps, i, k) == d.inbounds[i].lines[k])
  {
    RunKeepsReverse(EMPTY, ops);
    var d := Run(EMPTY, ops);
    assert LineOnce(d.inbounds, d.reversals, d.disps, i, k);
  }

  lemma CancellationIsWhole(d: Docs, r: nat)
    requires ChainInv(d) && ReverseInv(d) && r < |d.reversals| && d.reversals[r].whole && Reversing(d.reversals[r])
    ensures
      var c := d.reversals[r];
      && c.inbound < |d.inbounds| && c.total == d.inbounds[c.inbound].payable
      && (c.status == Approved ==> ConfirmCancellation(d, r, false).Ok?)
      && (c.status == Returned ==> d.inbounds[c.inbound].status == InCancelled)
  {
    assert ReturnOk(d.pos, d.inbounds, d.reversals[r]);
    assert InboundOk(d.pos, d.inbounds[d.reversals[r].inbound]);
  }

  /** A whole cancellation credits exactly the payable, and is the only reversal of its inbound order;
      once approved, only an outbound order can stop it. */
  lemma CancellationCreditsTheWholePayable(ops: seq<Op>, r: nat, other: nat)
    requires r < |Run(EMPTY, ops).reversals|
    requires Run(EMPTY, ops).reversals[r].whole && Reversing(Run(EMPTY, ops).reversals[r])
    ensures
      var d := Run(EMPTY, ops);
      var c := d.reversals[r];
      && c.inbound < |d.inbounds| && c.total == d.inbounds[c.inbound].payable
      && (other < |d.reversals| && other != r && d.reversals[other].inbound == c.inbound ==> !Reversing(d.reversals[other]))
      && !Disposal(d.disps, c.inbound)
      && (c.status == Approved ==> ConfirmCancellation(d, r, false).Ok?)
      && (c.status == Returned ==> d.inbounds[c.inbound].status == InCancelled)
  {
    RunKeepsReverse(EMPTY, ops);
    var d := Run(EMPTY, ops);
    CancellationIsWhole(d, r);
    CancellationLeavesNothing(d, r);
    if other < |d.reversals| && other != r && d.reversals[other].inbound == d.reversals[r].inbound {
      OnlyTheCancellation(d, r, other);
    }
  }

  lemma OneLine(k: nat, v: int)
    ensures MapSum(map[k := v]) == v
  {
    MapSumInsert(map[], k, v);
    assert map[][k := v] == map[k := v];
  }

  lemma SumOfOne<T>(row: T, weight: T -> int)
    ensures SumOf([row], weight) == weight(row)
  {
    assert [row][..0] == [];
  }

  lemma ShelfIsConsistent()
    ensures Quotations.Inv(SHELF)
  {
    assert Quotations.ActiveFor(SHELF, 0, 0);
    assert Quotations.OrderOk(SHELF, 0);
  }

  lemma BoughtIsConsistent()
    ensures PurchaseInv([SALE], [BOUGHT])
  {
    SumOfOne(BOUGHT, OrderedOn(0, 0));
    assert SoQuota([SALE], [BOUGHT], 0);
  }

  lemma UnseenIsConsistent()
    ensures InboundInv([BOUGHT], [UNSEEN])
  {
    SumOfOne(UNSEEN, InboundedOn(0, 0));
    OneLine(0, 1);
    assert LineAmounts(UNSEEN.lines, BOUGHT.lines) == map[0 := 1];
    assert PoQuota([BOUGHT], [UNSEEN], 0);
  }

  /** The state of ClosedGoodsCanBeBoughtAgain is one the invariants admit. */
  lemma ShelvedIsConsistent()
    ensures ChainInv(SHELVED) && ReverseInv(SHELVED)
  {
    ShelfIsConsistent();
    BoughtIsConsistent();
    UnseenIsConsistent();
    SumOfOne(PARKED, DisposedOn(0, 0));
    assert LineOnce([UNSEEN], [], [PARKED], 0, 0);
  }
}
