/**
 The document services over their tables: each method is one operation as the services run it,
 loops included, proved to do what the chain's step function says.
 */
module DocumentService {
  import opened Base
  import opened Sums
  import opened Rounding
  import opened Chain
  import Quotations
  import Reversals

  /** An ORDER BY over the lines of one document: each once, in some order. */
  ghost predicate Lists(order: seq<nat>, lines: Lines) {
    && (forall m :: 0 <= m < |order| ==> order[m] in lines)
    && (forall m, n :: 0 <= m < n < |order| ==> order[m] != order[n])
    && (forall k :: k in lines ==> k in order)
  }

  ghost predicate Priced(lines: Lines, prices: map<nat, PoLine>) {
    lines.Keys <= prices.Keys
  }

  lemma AmountGrows(lines: Lines, k: nat, qty: nat, prices: map<nat, PoLine>)
    requires k !in lines && k in prices
    ensures Amount(lines[k := qty], prices) == Amount(lines, prices) + Money(qty, prices[k].price)
  {
    assert LineAmounts(lines[k := qty], prices) == LineAmounts(lines, prices)[k := Money(qty, prices[k].price)];
    MapSumInsert(LineAmounts(lines, prices), k, Money(qty, prices[k].price));
  }

  lemma AmountOfNothing(prices: map<nat, PoLine>)
    ensures Amount(map[], prices) == 0
  {}

  /** The lines of a map that an order has listed so far. */
  function Listed(lines: Lines, order: seq<nat>): Lines {
    map k | k in lines && k in order :: lines[k]
  }

  lemma ListedNext(lines: Lines, order: seq<nat>, n: nat)
    requires n < |order| && Lists(order, lines)
    ensures order[n] in lines && order[n] !in Listed(lines, order[..n])
    ensures Listed(lines, order[..n + 1]) == Listed(lines, order[..n])[order[n] := lines[order[n]]]
  {
    assert order[..n + 1] == order[..n] + [order[n]];
  }

  lemma ListedAll(lines: Lines, order: seq<nat>)
    requires Lists(order, lines)
    ensures Listed(lines, order) == lines
  {}

  /** The payload loop's own test: its set of lines seen stands for the entries before. */
  lemma EntryErrorIs(d: Docs, i: nat, entries: seq<Entry>, n: nat)
    requires i < |d.inbounds| && n < |entries|
    ensures EntryError(d, i, entries, n) ==
              if entries[n].line in EntryLines(entries[..n]) then Some(OverReturn)
              else if entries[n].line !in d.inbounds[i].lines then Some(SourceInvalid)
              else if entries[n].qty > Left(d, i, entries[n].line) then Some(OverReturn)
              else None
  {
    Reversals.EntryLinesAre(entries[..n]);
    var k := entries[n].line;
    if k in EntryLines(entries[..n]) {
      var m :| 0 <= m < n && entries[..n][m] == Entry(k, EntryLines(entries[..n])[k]);
      assert entries[m].line == k;
    } else {
      forall m | 0 <= m < n ensures entries[m].line != k {
        assert entries[..n][m].line in EntryLines(entries[..n]);
      }
    }
  }

  lemma EntryLinesNext(entries: seq<Entry>, n: nat)
    requires n < |entries|
    ensures EntryLines(entries[..n + 1]) == EntryLines(entries[..n])[entries[n].line := entries[n].qty]
  {
    assert entries[..n + 1][..n] == entries[..n];
  }

  /** What the disposition loop has collected after some lines. */
  function LeftListed(d: Docs, i: nat, order: seq<nat>): Lines
    requires i < |d.inbounds|
  {
    map k | k in d.inbounds[i].lines && k in order && Left(d, i, k) > 0 :: Left(d, i, k)
  }

  lemma LeftListedNext(d: Docs, i: nat, order: seq<nat>, n: nat)
    requires i < |d.inbounds| && n < |order| && Lists(order, d.inbounds[i].lines)
    ensures order[n] !in LeftListed(d, i, order[..n])
    ensures LeftListed(d, i, order[..n + 1]) ==
              if Left(d, i, order[n]) > 0 then LeftListed(d, i, order[..n])[order[n] := Left(d, i, order[n])]
              else LeftListed(d, i, order[..n])
  {
    assert order[..n + 1] == order[..n] + [order[n]];
  }

  class Documents {
    var book: Quotations.Book
    var pos: seq<Po>
    var inbounds: seq<Inbound>
    var reversals: seq<Return>
    var disps: seq<Disposition>

    function Contents(): Docs
      reads this
    {
      Docs(book, pos, inbounds, reversals, disps)
    }

    constructor ()
      ensures Contents() == EMPTY
    {
      book, pos, inbounds, reversals, disps := Quotations.EMPTY, [], [], [], [];
    }

    // ----- Inbound orders -----

    /** _compute_payable_amount: each line is rounded before the sum. */
    method PayableAmount(lines: Lines, order: seq<nat>, prices: map<nat, PoLine>) returns (total: int)
      requires Lists(order, lines) && Priced(lines, prices)
      ensures total == Amount(lines, prices)
    {
      total := 0;
      AmountOfNothing(prices);
      assert Listed(lines, order[..0]) == map[];
      for n := 0 to |order|
        invariant total == Amount(Listed(lines, order[..n]), prices)
      {
        ListedNext(lines, order, n);
        AmountGrows(Listed(lines, order[..n]), order[n], lines[order[n]], prices);
        total := total + Money(lines[order[n]], prices[order[n]].price);
      }
      assert order[..|order|] == order;
      ListedAll(lines, order);
    }

    /** The quota check line by line, in the order of the lines. */
    method WithinReceiptQuota(p: nat, lines: Lines, order: seq<nat>) returns (ok: bool)
      requires p < |pos| && Lists(order, lines) && lines.Keys <= pos[p].lines.Keys
      ensures ok <==> forall k :: k in lines ==> Inbounded(inbounds, p, k) + lines[k] <= pos[p].lines[k].qty
    {
      for n := 0 to |order|
        invariant forall m :: 0 <= m < n ==>
                    Inbounded(inbounds, p, order[m]) + lines[order[m]] <= pos[p].lines[order[m]].qty
      {
        if Inbounded(inbounds, p, order[n]) + lines[order[n]] > pos[p].lines[order[n]].qty { return false; }
      }
      return true;
    }

    method CreateInboundOrder(p: nat, lines: Lines, order: seq<nat>) returns (r: Result<nat, Error>)
      requires Lists(order, lines)
      modifies this`inbounds
      ensures match CreateInbound(old(Contents()), p, lines)
              case Ok(d) => Contents() == d && r == Ok(|old(inbounds)|)
              case Err(e) => Contents() == old(Contents()) && r == Err(e)
    {
      if lines == map[] { return Err(Empty); }
      if p >= |pos| || pos[p].status != PoConfirmed { return Err(SourceInvalid); }
      if !Known(lines, pos[p].lines.Keys) { return Err(SourceInvalid); }
      var ok := WithinReceiptQuota(p, lines, order);
      if !ok { return Err(OverReceipt); }
      var payable := PayableAmount(lines, order, pos[p].lines);
      r := Ok(|inbounds|);
      inbounds := inbounds + [Inbound(p, InTransit, lines, payable)];
    }

    method ReceiveInbound(i: nat, stock: bool) returns (r: Result<(), Error>)
      modifies this`inbounds, this`disps
      ensures match Receive(old(Contents()), i, stock)
              case Ok(d) => Contents() == d && r == Ok(())
              case Err(e) => Contents() == old(Contents()) && r == Err(e)
    {
      if i >= |inbounds| { return Err(NotFound); }
      if inbounds[i].status != InTransit { return Err(InvalidTransition); }
      if HasOpenReturn(Contents(), i) { return Err(FinancialBoundary); }
      if HasAwaiting(Contents(), i) && !stock { return Err(StockShort); }
      inbounds := inbounds[i := inbounds[i].(status := Received)];
      disps := HeldOnReceipt(disps, i);
      r := Ok(());
    }

    // ----- Purchase returns -----

    /** _build_line_payloads: refuses at the first bad line, otherwise prices and adds up the rest. */
    method BuildLinePayloads(i: nat, entries: seq<Entry>) returns (r: Result<(Lines, int), Error>)
      requires i < |inbounds| && Priced(inbounds[i].lines, PricesOf(Contents(), i))
      ensures r == match FirstError(Contents(), i, entries, 0)
                   case Some(e) => Err(e)
                   case None => Ok((EntryLines(entries), Amount(EntryLines(entries), PricesOf(Contents(), i))))
    {
      var lines: Lines, total := map[], 0;
      ghost var d := Contents();
      var prices := PricesOf(Contents(), i);
      AmountOfNothing(prices);
      for n := 0 to |entries|
        invariant FirstError(d, i, entries, 0) == FirstError(d, i, entries, n)
        invariant lines == EntryLines(entries[..n]) && total == Amount(lines, prices)
      {
        var e := entries[n];
        EntryErrorIs(d, i, entries, n);
        if e.line in lines { return Err(OverReturn); }
        if e.line !in inbounds[i].lines { return Err(SourceInvalid); }
        if e.qty > Left(Contents(), i, e.line) { return Err(OverReturn); }
        AmountGrows(lines, e.line, e.qty, prices);
        EntryLinesNext(entries, n);
        total := total + Money(e.qty, prices[e.line].price);
        lines := lines[e.line := e.qty];
      }
      assert entries[..|entries|] == entries;
      r := Ok((lines, total));
    }

    method CreatePurchaseReturn(i: nat, entries: seq<Entry>, outbound: bool) returns (r: Result<nat, Error>)
      requires i < |inbounds| ==> Priced(inbounds[i].lines, PricesOf(Contents(), i))
      modifies this`reversals
      ensures match CreateReturn(old(Contents()), i, entries, outbound)
              case Ok(d) => Contents() == d && r == Ok(|old(reversals)|)
              case Err(e) => Contents() == old(Contents()) && r == Err(e)
    {
      if entries == [] { return Err(Empty); }
      if i >= |inbounds| { return Err(NotFound); }
      if inbounds[i].status != Received || outbound || HasDisposition(Contents(), i) { return Err(SourceInvalid); }
      var built := BuildLinePayloads(i, entries);
      if built.Err? { return Err(built.error); }
      r := Ok(|reversals|);
      reversals := reversals + [Return(i, false, Pending, built.value.0, built.value.1)];
    }

    method ConfirmReturnShipment(x: nat, outbound: bool, stock: bool) returns (r: Result<(), Error>)
      modifies this`reversals
      ensures match ConfirmReturn(old(Contents()), x, outbound, stock)
              case Ok(d) => Contents() == d && r == Ok(())
              case Err(e) => Contents() == old(Contents()) && r == Err(e)
    {
      if x >= |reversals| { return Err(NotFound); }
      if reversals[x].status != Approved || reversals[x].whole || outbound { return Err(SourceInvalid); }
      if !stock { return Err(StockShort); }
      reversals := reversals[x := reversals[x].(status := Returned)];
      r := Ok(());
    }

    method ConfirmInTransitCancellation(x: nat, outbound: bool) returns (r: Result<(), Error>)
      modifies this`reversals, this`inbounds
      ensures match ConfirmCancellation(old(Contents()), x, outbound)
              case Ok(d) => Contents() == d && r == Ok(())
              case Err(e) => Contents() == old(Contents()) && r == Err(e)
    {
      if x >= |reversals| { return Err(NotFound); }
      if reversals[x].status != Approved || !reversals[x].whole || outbound { return Err(SourceInvalid); }
      var i := reversals[x].inbound;
      if i >= |inbounds| { return Err(NotFound); }
      if inbounds[i].status != InTransit { return Err(InvalidTransition); }
      inbounds := inbounds[i := inbounds[i].(status := InCancelled)];
      reversals := reversals[x := reversals[x].(status := Returned)];
      r := Ok(());
    }

    // ----- Inventory dispositions -----

    /** The loop over all inbound lines: what is left of each, if anything, at its cost. */
    method CollectLeft(i: nat, order: seq<nat>) returns (lines: Lines, total: int)
      requires i < |inbounds| && Lists(order, inbounds[i].lines)
      requires Priced(inbounds[i].lines, PricesOf(Contents(), i))
      ensures lines == LeftLines(Contents(), i) && total == Amount(lines, PricesOf(Contents(), i))
    {
      lines, total := map[], 0;
      ghost var d := Contents();
      var prices := PricesOf(Contents(), i);
      AmountOfNothing(prices);
      for n := 0 to |order|
        invariant lines == LeftListed(d, i, order[..n]) && total == Amount(lines, prices)
      {
        LeftListedNext(d, i, order, n);
        var qty := Left(Contents(), i, order[n]);
        if qty > 0 {
          AmountGrows(lines, order[n], qty, prices);
          total := total + Money(qty, prices[order[n]].price);
          lines := lines[order[n] := qty];
        }
      }
      assert order[..|order|] == order;
      assert LeftListed(d, i, order) == LeftLines(d, i);
    }

    method CreateDisposition(i: nat, handling: Handling, order: seq<nat>, outbound: bool, stock: bool)
      returns (r: Result<nat, Error>)
      requires i < |inbounds| ==> Lists(order, inbounds[i].lines) && Priced(inbounds[i].lines, PricesOf(Contents(), i))
      modifies this`disps, this`inbounds
      ensures match Dispose(old(Contents()), i, handling, outbound, stock)
              case Ok(d) => Contents() == d && r == Ok(|old(disps)|)
              case Err(e) => Contents() == old(Contents()) && r == Err(e)
      ensures r.Ok? ==>
                && r.value < |disps| && i < |old(inbounds)| && disps[r.value].inbound == i
                && disps[r.value].status == (if old(inbounds)[i].status == Received then Held
                                             else if handling == CloseWithoutReceipt then ClosedWithoutReceipt
                                             else PendingReceipt)
                && inbounds == (if handling == CloseWithoutReceipt
                                then old(inbounds)[i := old(inbounds)[i].(status := Closed)] else old(inbounds))
    {
      if i >= |inbounds| { return Err(NotFound); }
      if !Arriving(inbounds[i]) { return Err(SourceInvalid); }
      var received := inbounds[i].status == Received;
      if received && handling == CloseWithoutReceipt { return Err(SourceInvalid); }
      if outbound || HasOpenReturn(Contents(), i) || HasDisposition(Contents(), i) { return Err(SourceInvalid); }
      if inbounds[i].lines == map[] { return Err(Empty); }
      var lines, total := CollectLeft(i, order);
      if lines == map[] { return Err(OverReturn); }
      if received && !stock { return Err(StockShort); }
      var state := DispositionState(received, handling);
      r := Ok(|disps|);
      disps := disps + [Disposition(i, state, lines, total)];
      if state == ClosedWithoutReceipt {
        inbounds := inbounds[i := inbounds[i].(status := Closed)];
      }
    }

    // ----- Purchase orders -----

    method CancelPurchaseOrder(p: nat) returns (r: Result<(), Error>)
      modifies this`pos
      ensures match CancelPo(old(Contents()), p)
              case Ok(d) => Contents() == d && r == Ok(())
              case Err(e) => Contents() == old(Contents()) && r == Err(e)
    {
      if p >= |pos| { return Err(NotFound); }
      if pos[p].status == PoCancelled { return Err(InvalidTransition); }
      for i := 0 to |inbounds|
        invariant forall x :: 0 <= x < i ==> !(inbounds[x].po == p && Arriving(inbounds[x]))
      {
        if inbounds[i].po == p && Arriving(inbounds[i]) { return Err(HasActiveInbound); }
      }
      pos := pos[p := pos[p].(status := PoCancelled)];
      r := Ok(());
    }
  }
}
