/**
 Purchase returns, in-transit cancellations and inventory dispositions: which requests are accepted,
 exactly, and what each leaves in the tables.
 */
module ReverseGuards {
  import opened Base
  import opened Sums
  import opened Chain
  import opened ChainGuards
  import opened Reversals

  // ---------- New returns and cancellations ----------

  predicate DifferentLines(entries: seq<Entry>) {
    forall m, n :: 0 <= m < n < |entries| ==> entries[m].line != entries[n].line
  }

  /** The lines of a return are the entries of its payload. */
  ghost predicate AsAsked(lines: Lines, entries: seq<Entry>) {
    && (forall m :: 0 <= m < |entries| ==> entries[m].line in lines && lines[entries[m].line] == entries[m].qty)
    && (forall k :: k in lines ==> exists m :: 0 <= m < |entries| && entries[m].line == k)
  }

  lemma {:induction false} DifferentLinesAreAsAsked(entries: seq<Entry>)
    requires DifferentLines(entries)
    ensures AsAsked(EntryLines(entries), entries)
  {
    EntryLinesAre(entries);
    var lines := EntryLines(entries);
    forall k | k in lines ensures exists m :: 0 <= m < |entries| && entries[m] == Entry(k, lines[k]) {
      assert Entry(k, lines[k]) in entries;
    }
    forall m | 0 <= m < |entries| ensures lines[entries[m].line] == entries[m].qty {
      var n :| 0 <= n < |entries| && entries[n] == Entry(entries[m].line, lines[entries[m].line]);
    }
  }

  function PricesAt(d: Docs, i: nat): map<nat, PoLine>
    requires ChainInv(d) && i < |d.inbounds|
  {
    assert InboundOk(d.pos, d.inbounds[i]);
    d.pos[d.inbounds[i].po].lines
  }

  /** A new row of a return, whole or not, takes no unit a second time; so it asks for no more than is left. */
  lemma {:induction false} LawfulReturnFits(d: Docs, row: Return)
    requires ChainInv(d) && ReverseInv(d) && Open(row) && ReverseInv(d.(reversals := d.reversals + [row]))
    ensures row.inbound < |d.inbounds| && row.lines != map[] && !HasDisposition(d, row.inbound)
    ensures d.inbounds[row.inbound].status == if row.whole then InTransit else Received
    ensures forall k :: k in row.lines ==> k in d.inbounds[row.inbound].lines && 0 < row.lines[k] <= Left(d, row.inbound, k)
  {
    var n := d.(reversals := d.reversals + [row]);
    var last := |d.reversals|;
    assert n.reversals[last] == row && ReturnOk(n.pos, n.inbounds, n.reversals[last]);
    forall x | 0 <= x < |d.disps| ensures d.disps[x].inbound != row.inbound {
      assert n.reversals[last].inbound != n.disps[x].inbound;
    }
    forall k | k in row.lines ensures row.lines[k] <= Left(d, row.inbound, k) {
      assert LineOnce(n.inbounds, n.reversals, n.disps, row.inbound, k);
      SumAppend(d.reversals, row, ReversedOn(row.inbound, k));
      DisposedIsNotNegative(d.disps, row.inbound, k);
    }
  }

  lemma {:induction false} AcceptedLinesDiffer(d: Docs, i: nat, entries: seq<Entry>)
    requires i < |d.inbounds| && FirstError(d, i, entries, 0).None?
    ensures DifferentLines(entries)
  {
    AcceptedEntries(d, i, entries, 0);
    forall m, n | 0 <= m < n < |entries| ensures entries[m].line != entries[n].line {
      assert EntryError(d, i, entries, n).None?;
    }
  }

  lemma {:induction false} AcceptedReturn(d: Docs, i: nat, entries: seq<Entry>, outbound: bool)
    requires ChainInv(d) && ReverseInv(d) && i < |d.inbounds| && CreateReturn(d, i, entries, outbound).Ok?
    requires forall m :: 0 <= m < |entries| ==> entries[m].qty > 0
    ensures !outbound && DifferentLines(entries) && ReverseInv(CreateReturn(d, i, entries, outbound).value)
    ensures CreateReturn(d, i, entries, outbound).value ==
              d.(reversals := d.reversals
                 + [Return(i, false, Pending, EntryLines(entries), Cost(EntryLines(entries), PricesAt(d, i)))])
  {
    assert InboundOk(d.pos, d.inbounds[i]);
    CreateReturnKeepsReverse(d, i, entries, outbound);
    AcceptedLines(d, i, entries);
    AcceptedLinesDiffer(d, i, entries);
    AmountIsTheCost(EntryLines(entries), PricesAt(d, i));
  }

  /** Entries that ask for different lines, each within what is left, pass the payload loop. */
  lemma {:induction false} FittingEntries(d: Docs, i: nat, entries: seq<Entry>, lines: Lines)
    requires i < |d.inbounds| && DifferentLines(entries) && AsAsked(lines, entries)
    requires forall k :: k in lines ==> k in d.inbounds[i].lines && lines[k] <= Left(d, i, k)
    ensures FirstError(d, i, entries, 0).None?
  {
    AcceptedEntries(d, i, entries, 0);
    forall m | 0 <= m < |entries| ensures EntryError(d, i, entries, m).None? {
      assert entries[m].line in lines;
    }
  }

  lemma {:induction false} LawfulReturnIsAccepted(d: Docs, i: nat, entries: seq<Entry>, row: Return)
    requires ChainInv(d) && ReverseInv(d) && i < |d.inbounds| && DifferentLines(entries)
    requires row.inbound == i && !row.whole && row.status == Pending && row.lines == EntryLines(entries)
    requires ReverseInv(d.(reversals := d.reversals + [row]))
    ensures CreateReturn(d, i, entries, false).Ok?
  {
    LawfulReturnFits(d, row);
    DifferentLinesAreAsAsked(entries);
    FittingEntries(d, i, entries, row.lines);
    assert entries != [];
  }

  /** A return is accepted exactly when its entries name different lines and it reverses no unit a second time. */
  lemma {:induction false} CreateReturnIsExact(d: Docs, i: nat, entries: seq<Entry>, outbound: bool)
    requires ChainInv(d) && ReverseInv(d) && i < |d.inbounds|
    requires forall m :: 0 <= m < |entries| ==> entries[m].qty > 0
    ensures
      var r, lines := CreateReturn(d, i, entries, outbound), EntryLines(entries);
      var n := d.(reversals := d.reversals + [Return(i, false, Pending, lines, Cost(lines, PricesAt(d, i)))]);
      && (r.Ok? <==> !outbound && DifferentLines(entries) && ReverseInv(n))
      && (r.Ok? ==> r.value == n && AsAsked(lines, entries))
  {
    var lines := EntryLines(entries);
    var row := Return(i, false, Pending, lines, Cost(lines, PricesAt(d, i)));
    if CreateReturn(d, i, entries, outbound).Ok? {
      AcceptedReturn(d, i, entries, outbound);
      DifferentLinesAreAsAsked(entries);
    } else if !outbound && DifferentLines(entries) && ReverseInv(d.(reversals := d.reversals + [row])) {
      LawfulReturnIsAccepted(d, i, entries, row);
    }
  }

  /** Where every unit is left, no return is open and no line reversed in part. */
  lemma {:induction false} AllLeft(d: Docs, i: nat)
    requires ReverseInv(d) && i < |d.inbounds|
    requires forall k :: k in d.inbounds[i].lines ==> d.inbounds[i].lines[k] <= Left(d, i, k)
    ensures !HasOpenReturn(d, i) && !PartlyReversed(d, i)
  {
    forall r | 0 <= r < |d.reversals| && Open(d.reversals[r]) ensures d.reversals[r].inbound != i {
      if d.reversals[r].inbound == i { AnOpenReturnHoldsUnits(d, r); }
    }
  }

  lemma {:induction false} LawfulCancellationIsAccepted(d: Docs, i: nat, row: Return)
    requires ChainInv(d) && ReverseInv(d) && i < |d.inbounds|
    requires row.inbound == i && row.whole && row.status == Pending && row.lines == d.inbounds[i].lines
    requires ReverseInv(d.(reversals := d.reversals + [row]))
    ensures CreateCancellation(d, i, false).Ok?
  {
    LawfulReturnFits(d, row);
    AllLeft(d, i);
  }

  lemma {:induction false} AcceptedCancellation(d: Docs, i: nat, outbound: bool)
    requires ChainInv(d) && ReverseInv(d) && i < |d.inbounds| && CreateCancellation(d, i, outbound).Ok?
    ensures !outbound && ReverseInv(CreateCancellation(d, i, outbound).value)
    ensures CreateCancellation(d, i, outbound).value ==
              d.(reversals := d.reversals + [Return(i, true, Pending, d.inbounds[i].lines, d.inbounds[i].payable)])
  {
    assert InboundOk(d.pos, d.inbounds[i]);
    CreateCancellationKeepsReverse(d, i, outbound);
  }

  /** An in-transit inbound order is cancelled as a whole, exactly when that reverses no unit a second time; the
      cancellation is for what was billed. */
  lemma {:induction false} CreateCancellationIsExact(d: Docs, i: nat, outbound: bool)
    requires ChainInv(d) && ReverseInv(d) && i < |d.inbounds|
    ensures
      var r := CreateCancellation(d, i, outbound);
      var n := d.(reversals := d.reversals + [Return(i, true, Pending, d.inbounds[i].lines, d.inbounds[i].payable)]);
      && (r.Ok? <==> !outbound && ReverseInv(n)) && (r.Ok? ==> r.value == n)
  {
    var row := Return(i, true, Pending, d.inbounds[i].lines, d.inbounds[i].payable);
    if CreateCancellation(d, i, outbound).Ok? {
      AcceptedCancellation(d, i, outbound);
    } else if !outbound && ReverseInv(d.(reversals := d.reversals + [row])) {
      LawfulCancellationIsAccepted(d, i, row);
    }
  }

  lemma {:induction false} AnOpenReturnHoldsUnits(d: Docs, r: nat)
    requires ReverseInv(d) && r < |d.reversals| && Open(d.reversals[r])
    ensures d.reversals[r].inbound < |d.inbounds|
    ensures exists k :: k in d.inbounds[d.reversals[r].inbound].lines
                        && Left(d, d.reversals[r].inbound, k) < d.inbounds[d.reversals[r].inbound].lines[k]
  {
    var i := d.reversals[r].inbound;
    assert ReturnOk(d.pos, d.inbounds, d.reversals[r]);
    var k :| k in d.reversals[r].lines;
    SumCovers(d.reversals, ReversedOn(i, k));
    assert ReversedOn(i, k)(d.reversals[r]) > 0;
  }

  // ---------- Decisions ----------

  /** A pending row is approved or rejected; an approved one is completed, a return against stock and a
      cancellation with its inbound order. Each step changes that status, and the inbound order's where it says so. */
  lemma ReturnStepsAreExact(d: Docs, r: nat, outbound: bool, stock: bool)
    requires ReverseInv(d) && r < |d.reversals|
    ensures d.reversals[r].inbound < |d.inbounds|
    ensures
      var row, approved, rejected := d.reversals[r], Judge(d, r, Approved), Judge(d, r, Rejected);
      && (approved.Ok? <==> row.status == Pending) && (rejected.Ok? <==> row.status == Pending)
      && (approved.Ok? ==>
            approved.value == d.(reversals := d.reversals[r := Return(row.inbound, row.whole, Approved, row.lines, row.total)]))
      && (rejected.Ok? ==>
            rejected.value == d.(reversals := d.reversals[r := Return(row.inbound, row.whole, Rejected, row.lines, row.total)]))
    ensures
      var row := d.reversals[r];
      var done := d.(reversals := d.reversals[r := Return(row.inbound, row.whole, Returned, row.lines, row.total)]);
      var inbound := d.inbounds[row.inbound];
      var shipped, cancelled := ConfirmReturn(d, r, outbound, stock), ConfirmCancellation(d, r, outbound);
      && (shipped.Ok? <==> row.status == Approved && !row.whole && !outbound && stock)
      && (shipped.Ok? ==> shipped.value == done)
      && (cancelled.Ok? <==> row.status == Approved && row.whole && !outbound)
      && (cancelled.Ok? ==>
            cancelled.value == done.(inbounds :=
              d.inbounds[row.inbound := Inbound(inbound.po, InCancelled, inbound.lines, inbound.payable)]))
  {
    assert ReturnOk(d.pos, d.inbounds, d.reversals[r]);
  }

  function OrElse(d: Docs, r: Result<Docs, Error>): Docs {
    match r case Ok(n) => n case Err(_) => d
  }

  /** The steps of a run on returns and dispositions are these operations, rolled back where they are refused. */
  lemma NewReverseSteps(d: Docs, i: nat, entries: seq<Entry>, outbound: bool)
    requires Acceptable(OpCreateReturn(i, entries, outbound))
    ensures Step(d, OpCreateReturn(i, entries, outbound)) == OrElse(d, CreateReturn(d, i, entries, outbound))
    ensures Step(d, OpCreateCancellation(i, outbound)) == OrElse(d, CreateCancellation(d, i, outbound))
  {}

  lemma DisposingStep(d: Docs, i: nat, handling: Handling, outbound: bool, stock: bool)
    ensures Step(d, OpDispose(i, handling, outbound, stock)) == OrElse(d, Dispose(d, i, handling, outbound, stock))
  {}

  lemma DecidingSteps(d: Docs, r: nat, outbound: bool, stock: bool)
    ensures Step(d, OpApprove(r)) == OrElse(d, Judge(d, r, Approved))
    ensures Step(d, OpReject(r)) == OrElse(d, Judge(d, r, Rejected))
    ensures Step(d, OpConfirmReturn(r, outbound, stock)) == OrElse(d, ConfirmReturn(d, r, outbound, stock))
    ensures Step(d, OpConfirmCancellation(r, outbound)) == OrElse(d, ConfirmCancellation(d, r, outbound))
  {}

  // ---------- Dispositions ----------

  /** One disposition takes all that is left of an inbound order, at cost. Received goods are held at once. Goods in
      transit are either closed, with their inbound order, or the disposition waits for them. */
  lemma {:induction false} DisposeIsExact(d: Docs, i: nat, handling: Handling, outbound: bool, stock: bool)
    requires ChainInv(d) && i < |d.inbounds|
    ensures
      var r, row := Dispose(d, i, handling, outbound, stock), d.inbounds[i];
      var arrived := row.status == Received && handling == ReceiveToDisposition && stock;
      r.Ok? <==>
        && (row.status == InTransit || arrived) && !outbound
        && (forall x :: 0 <= x < |d.reversals| && d.reversals[x].inbound == i ==> !Open(d.reversals[x]))
        && (forall x :: 0 <= x < |d.disps| && d.disps[x].inbound == i ==> d.disps[x].status == DispositionVoided)
        && exists k :: k in row.lines && row.lines[k] - Reversed(d.reversals, i, k) > 0
    ensures
      var r, row := Dispose(d, i, handling, outbound, stock), d.inbounds[i];
      var closes := row.status == InTransit && handling == CloseWithoutReceipt;
      r.Ok? ==>
        && |r.value.disps| == |d.disps| + 1
        && var x := r.value.disps[|d.disps|];
        && x.inbound == i
        && x.status == (if row.status == Received then Held else if closes then ClosedWithoutReceipt else PendingReceipt)
        && (forall k :: k in x.lines <==> k in row.lines && row.lines[k] - Reversed(d.reversals, i, k) > 0)
        && (forall k :: k in x.lines ==> x.lines[k] == row.lines[k] - Reversed(d.reversals, i, k))
        && x.cost == Cost(x.lines, PricesAt(d, i))
        && r.value == d.(disps := d.disps + [x],
                         inbounds := if closes then d.inbounds[i := Inbound(row.po, Closed, row.lines, row.payable)]
                                     else d.inbounds)
  {
    var r, lines := Dispose(d, i, handling, outbound, stock), LeftLines(d, i);
    assert InboundOk(d.pos, d.inbounds[i]);
    if r.Ok? {
      AmountIsTheCost(lines, PricesAt(d, i));
      assert lines != map[];
      var k :| k in lines;
      assert k in d.inbounds[i].lines && Left(d, i, k) > 0;
    }
    if k: nat :| k in d.inbounds[i].lines && d.inbounds[i].lines[k] - Reversed(d.reversals, i, k) > 0 {
      assert k in lines;
    }
  }

  ghost predicate Disposed(d: Docs, i: nat) {
    exists x :: 0 <= x < |d.disps| && d.disps[x].inbound == i && d.disps[x].status != DispositionVoided
  }

  ghost predicate UnderReturn(d: Docs, i: nat) {
    exists r :: 0 <= r < |d.reversals| && d.reversals[r].inbound == i && Open(d.reversals[r])
  }

  /** A disposition is refused for a reason that holds. */
  lemma {:induction false} DisposeErrorsAreTrue(d: Docs, i: nat, handling: Handling, outbound: bool, stock: bool)
    requires ChainInv(d) && Dispose(d, i, handling, outbound, stock).Err?
    ensures
      match Dispose(d, i, handling, outbound, stock).error
      case NotFound => i >= |d.inbounds|
      case SourceInvalid => i < |d.inbounds|
        && (outbound || UnderReturn(d, i) || Disposed(d, i) || d.inbounds[i].status == InCancelled
            || d.inbounds[i].status == Closed || (d.inbounds[i].status == Received && handling == CloseWithoutReceipt))
      case OverReturn => i < |d.inbounds|
        && forall k :: k in d.inbounds[i].lines ==> d.inbounds[i].lines[k] <= Reversed(d.reversals, i, k)
      case StockShort => i < |d.inbounds| && d.inbounds[i].status == Received && !stock
      case _ => false
  {
    if i < |d.inbounds| {
      assert InboundOk(d.pos, d.inbounds[i]);
      assert HasDisposition(d, i) ==> Disposed(d, i);
      assert HasOpenReturn(d, i) ==> UnderReturn(d, i);
      if Dispose(d, i, handling, outbound, stock).error == OverReturn {
        forall k | k in d.inbounds[i].lines ensures d.inbounds[i].lines[k] <= Reversed(d.reversals, i, k) {
          assert k !in LeftLines(d, i);
        }
      }
    }
  }

  /** An inbound order that is closed, or was cancelled, stays as it is over any run: nothing receives it. */
  lemma {:induction false} ClosedIsNeverReceived(d: Docs, ops: seq<Op>, i: nat, stock: bool)
    requires i < |d.inbounds| && (d.inbounds[i].status == Closed || d.inbounds[i].status == InCancelled)
    ensures i < |Run(d, ops).inbounds| && Run(d, ops).inbounds[i] == d.inbounds[i]
    ensures Receive(Run(d, ops), i, stock) == Err(InvalidTransition)
    decreases |ops|
  {
    if ops != [] {
      ClosedStaysClosed(d, ops[0], i);
      ClosedIsNeverReceived(Step(d, ops[0]), ops[1..], i, stock);
    }
  }

  lemma ClosedStaysClosed(d: Docs, op: Op, i: nat)
    requires i < |d.inbounds| && !Arriving(d.inbounds[i])
    ensures i < |Step(d, op).inbounds| && Step(d, op).inbounds[i] == d.inbounds[i]
  {}

  /** A disposition waits for goods in transit, or holds them once they are in. */
  ghost predicate WaitsOrHolds(d: Docs, i: nat, x: nat) {
    && i < |d.inbounds| && x < |d.disps| && d.disps[x].inbound == i
    && ((d.inbounds[i].status == InTransit && d.disps[x].status == PendingReceipt)
        || (d.inbounds[i].status == Received && d.disps[x].status == Held))
  }

  lemma WaitingOnPurchase(d: Docs, op: Op, i: nat, x: nat)
    requires WaitsOrHolds(d, i, x) && !HasOpenReturn(d, i) && OnPurchases(op)
    ensures Step(d, op).inbounds == d.inbounds && Step(d, op).reversals == d.reversals && Step(d, op).disps == d.disps
  {}

  lemma WaitingOnInbound(d: Docs, op: Op, i: nat, x: nat)
    requires WaitsOrHolds(d, i, x) && !HasOpenReturn(d, i) && OnInbounds(op)
    ensures WaitsOrHolds(Step(d, op), i, x) && !HasOpenReturn(Step(d, op), i)
    ensures Step(d, op).disps[x].lines == d.disps[x].lines && Step(d, op).disps[x].cost == d.disps[x].cost
    ensures d.disps[x].status == Held ==> Step(d, op).disps[x].status == Held
  {
    assert HasDisposition(d, i);
    assert d.disps[x].status == PendingReceipt ==> Awaiting(d.disps[x], i);
  }

  lemma WaitingOnReturn(d: Docs, op: Op, i: nat, x: nat)
    requires WaitsOrHolds(d, i, x) && !HasOpenReturn(d, i) && !OnPurchases(op) && !OnInbounds(op)
    ensures WaitsOrHolds(Step(d, op), i, x) && !HasOpenReturn(Step(d, op), i)
    ensures Step(d, op).disps[x].lines == d.disps[x].lines && Step(d, op).disps[x].cost == d.disps[x].cost
    ensures d.disps[x].status == Held ==> Step(d, op).disps[x].status == Held
  {
    assert HasDisposition(d, i);
  }

  lemma WaitingStep(d: Docs, op: Op, i: nat, x: nat)
    requires WaitsOrHolds(d, i, x) && !HasOpenReturn(d, i)
    ensures WaitsOrHolds(Step(d, op), i, x) && !HasOpenReturn(Step(d, op), i)
    ensures Step(d, op).disps[x].lines == d.disps[x].lines && Step(d, op).disps[x].cost == d.disps[x].cost
    ensures d.disps[x].status == Held ==> Step(d, op).disps[x].status == Held
  {
    if OnPurchases(op) {
      WaitingOnPurchase(d, op, i, x);
    } else if OnInbounds(op) {
      WaitingOnInbound(d, op, i, x);
    } else {
      WaitingOnReturn(d, op, i, x);
    }
  }

  /** Over any run a disposition for goods in transit waits until they come, with what it took at what cost; they
      can then be received, into held stock, and neither returned, cancelled nor sent back from there. */
  lemma {:induction false} WaitingGoodsArriveHeld(d: Docs, ops: seq<Op>, i: nat, x: nat)
    requires WaitsOrHolds(d, i, x) && !HasOpenReturn(d, i)
    ensures
      var n := Run(d, ops);
      && WaitsOrHolds(n, i, x) && !HasOpenReturn(n, i)
      && n.disps[x].lines == d.disps[x].lines && n.disps[x].cost == d.disps[x].cost
      && Unreceive(n, i, true).Err?
      && (n.disps[x].status == PendingReceipt ==>
            && Receive(n, i, false) == Err(StockShort)
            && var r := Receive(n, i, true);
            && r.Ok? && |r.value.disps| == |n.disps| && r.value.inbounds[i].status == Received
            && r.value.disps[x] == n.disps[x].(status := Held))
    decreases |ops|
  {
    if ops != [] {
      WaitingStep(d, ops[0], i, x);
      WaitingGoodsArriveHeld(Step(d, ops[0]), ops[1..], i, x);
    } else {
      assert HasDisposition(d, i);
      assert d.disps[x].status == PendingReceipt ==> Awaiting(d.disps[x], i);
    }
  }
}
