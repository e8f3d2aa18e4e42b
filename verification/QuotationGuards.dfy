/**
 What the operations on quotations and sales orders accept, exactly, and what the book holds afterwards,
 row by row.
 */
module QuotationGuards {
  import opened Base
  import opened Rounding
  import opened Quotations

  // ---------- The save ----------

  /** The number of entries that ask for a new row. */
  function NewLines(entries: seq<Entry>): nat {
    if entries == [] then 0
    else NewLines(entries[..|entries| - 1]) + if entries[|entries| - 1].id.None? then 1 else 0
  }

  /** The row an entry is written to: its own, or the next one after those of the new entries before it. */
  function RowFor(entries: seq<Entry>, next: nat, i: nat): nat
    requires i < |entries|
  {
    match entries[i].id case Some(id) => id case None => next + NewLines(entries[..i])
  }

  predicate NamedLater(entries: seq<Entry>, i: nat)
    requires i < |entries|
  {
    entries[i].id.Some? && exists j :: i < j < |entries| && entries[j].id == entries[i].id
  }

  /** Entry i has its row, with its product, price and quantity unless a later entry names the row again. */
  predicate Holds(lines: map<nat, Line>, entries: seq<Entry>, next: nat, i: nat)
    requires i < |entries|
  {
    && RowFor(entries, next, i) in lines
    && (!NamedLater(entries, i) ==>
          && lines[RowFor(entries, next, i)].sku == entries[i].line.sku
          && lines[RowFor(entries, next, i)].price == entries[i].line.price
          && lines[RowFor(entries, next, i)].qty == entries[i].line.qty)
  }

  /** Every entry has its row, as the last entry that names it says, and there are no other rows. */
  ghost predicate WrittenOut(lines: map<nat, Line>, entries: seq<Entry>, next: nat) {
    && (forall i :: 0 <= i < |entries| ==> Holds(lines, entries, next, i))
    && (forall id :: id in lines ==> exists i :: 0 <= i < |entries| && RowFor(entries, next, i) == id)
  }

  function PayloadTotal(entries: seq<Entry>): nat {
    if entries == [] then 0
    else
      var last := entries[|entries| - 1].line;
      PayloadTotal(entries[..|entries| - 1]) + Money(last.qty, last.price)
  }

  lemma RowsOfTheFront(entries: seq<Entry>, next: nat, i: nat)
    requires entries != [] && i < |entries| - 1
    ensures RowFor(entries[..|entries| - 1], next, i) == RowFor(entries, next, i)
    ensures !NamedLater(entries, i) ==> !NamedLater(entries[..|entries| - 1], i)
    ensures NamedLater(entries, i) && !NamedLater(entries[..|entries| - 1], i) ==> entries[i].id == entries[|entries| - 1].id
  {
    var front := entries[..|entries| - 1];
    assert front[..i] == entries[..i];
    if NamedLater(front, i) {
      var j :| i < j < |front| && front[j].id == front[i].id;
      assert entries[j].id == entries[i].id;
    }
    if NamedLater(entries, i) {
      var j :| i < j < |entries| && entries[j].id == entries[i].id;
      assert j < |front| ==> front[j].id == front[i].id;
    }
  }

  lemma {:induction false} NewRowsAreBelow(entries: seq<Entry>, n: nat)
    requires n <= |entries|
    ensures NewLines(entries[..n]) <= NewLines(entries)
    ensures n < |entries| && entries[n].id.None? ==> NewLines(entries[..n]) < NewLines(entries)
  {
    if n < |entries| {
      var front := entries[..|entries| - 1];
      assert front[..n] == entries[..n];
      NewRowsAreBelow(front, n);
    } else {
      assert entries[..n] == entries;
    }
  }

  ghost predicate IdsBelow(entries: seq<Entry>, next: nat) {
    forall i :: 0 <= i < |entries| && entries[i].id.Some? ==> entries[i].id.value < next
  }

  /** An earlier row is only overwritten by an entry that names it. */
  lemma EarlierRow(entries: seq<Entry>, next: nat, i: nat)
    requires entries != [] && i < |entries| - 1 && IdsBelow(entries, next)
    ensures RowFor(entries, next, i) == RowFor(entries, next, |entries| - 1) ==> NamedLater(entries, i)
  {
    var n := |entries| - 1;
    assert entries[..n][..i] == entries[..i];
    NewRowsAreBelow(entries[..n], i);
  }

  lemma StillHolds(lines: map<nat, Line>, entries: seq<Entry>, next: nat, i: nat)
    requires entries != [] && i < |entries| - 1 && IdsBelow(entries, next)
    requires Holds(lines, entries[..|entries| - 1], next, i)
    ensures Holds(lines[RowFor(entries, next, |entries| - 1) := entries[|entries| - 1].line], entries, next, i)
  {
    RowsOfTheFront(entries, next, i);
    EarlierRow(entries, next, i);
  }

  /** One more entry: its row, written last. */
  lemma OneMoreRow(lines: map<nat, Line>, entries: seq<Entry>, next: nat)
    requires entries != [] && IdsBelow(entries, next)
    requires WrittenOut(lines, entries[..|entries| - 1], next)
    ensures WrittenOut(lines[RowFor(entries, next, |entries| - 1) := entries[|entries| - 1].line], entries, next)
  {
    var n := |entries| - 1;
    var front, row := entries[..n], RowFor(entries, next, n);
    var more := lines[row := entries[n].line];
    forall i | 0 <= i < |entries| ensures Holds(more, entries, next, i) {
      if i < n {
        assert Holds(lines, front, next, i);
        StillHolds(lines, entries, next, i);
      }
    }
    forall id | id in more ensures exists i :: 0 <= i < |entries| && RowFor(entries, next, i) == id {
      if id in lines {
        var i :| 0 <= i < |front| && RowFor(front, next, i) == id;
        RowsOfTheFront(entries, next, i);
      } else {
        assert RowFor(entries, next, n) == id;
      }
    }
  }

  lemma FreshNext(entries: seq<Entry>, next: nat)
    requires entries != []
    ensures
      var front, last := entries[..|entries| - 1], entries[|entries| - 1];
      var f, n := Fresh(front, next), Fresh(entries, next);
      && (f.next == next + NewLines(front) ==>
            n.lines == f.lines[RowFor(entries, next, |entries| - 1) := last.line] && n.next == next + NewLines(entries))
      && n.total == f.total + Money(last.line.qty, last.line.price)
  {}

  lemma {:induction false} FreshIsWrittenOut(entries: seq<Entry>, next: nat)
    requires IdsBelow(entries, next)
    ensures WrittenOut(Fresh(entries, next).lines, entries, next)
    ensures Fresh(entries, next).next == next + NewLines(entries) && Fresh(entries, next).total == PayloadTotal(entries)
  {
    if entries != [] {
      FreshIsWrittenOut(entries[..|entries| - 1], next);
      FreshNext(entries, next);
      OneMoreRow(Fresh(entries[..|entries| - 1], next).lines, entries, next);
    }
  }

  /** The kept rows are all overwritten, so they do not show. */
  lemma NothingKeptShows(rows: map<nat, Line>, entries: seq<Entry>, next: nat)
    requires PayloadIds(entries) <= rows.Keys
    ensures Reconciled(Rows(Kept(rows, entries), next, 0), entries) == Fresh(entries, next)
  {
    KeptRowsAreOverwritten(Kept(rows, entries), next, entries);
    var r, f := Reconciled(Rows(Kept(rows, entries), next, 0), entries), Fresh(entries, next);
    assert r.lines.Keys == f.lines.Keys;
    assert r.lines == f.lines;
  }

  /** The rows of a payload whose ids are all loaded rows. */
  lemma ReconciledIsWrittenOut(rows: map<nat, Line>, entries: seq<Entry>, next: nat)
    requires Below(rows, next) && PayloadIds(entries) <= rows.Keys
    ensures
      var r := Reconciled(Rows(Kept(rows, entries), next, 0), entries);
      WrittenOut(r.lines, entries, next) && r.next == next + NewLines(entries) && r.total == PayloadTotal(entries)
  {
    NothingKeptShows(rows, entries, next);
    assert forall i :: 0 <= i < |entries| && entries[i].id.Some? ==> entries[i].id.value in PayloadIds(entries);
    FreshIsWrittenOut(entries, next);
  }

  /** A payload is in order for the rows loaded: no product twice, all of them sellable, every id one of those
      rows, and every row that an order refers to is named. */
  ghost predicate InOrder(b: Book, rows: map<nat, Line>, entries: seq<Entry>, sellable: set<nat>) {
    && (forall i, j :: 0 <= i < j < |entries| ==> entries[i].line.sku != entries[j].line.sku)
    && (forall i :: 0 <= i < |entries| ==>
          entries[i].line.sku in sellable && (entries[i].id.Some? ==> entries[i].id.value in rows))
    && (forall id, s :: id in rows && 0 <= s < |b.orders| && id in b.orders[s].lines ==>
          exists i :: 0 <= i < |entries| && entries[i].id == Some(id))
  }

  lemma GuardIsInOrder(b: Book, rows: map<nat, Line>, entries: seq<Entry>, sellable: set<nat>)
    ensures SaveGuard(b, rows, entries, sellable).None? <==> InOrder(b, rows, entries, sellable)
  {
    assert forall i :: 0 <= i < |entries| && entries[i].id.Some? ==> entries[i].id.value in PayloadIds(entries);
    if InOrder(b, rows, entries, sellable) {
      forall id | id in rows && Referenced(b.orders, id) ensures id in PayloadIds(entries) {
        var s :| 0 <= s < |b.orders| && id in b.orders[s].lines;
        assert exists i :: 0 <= i < |entries| && entries[i].id == Some(id);
      }
    }
    if SaveGuard(b, rows, entries, sellable).None? {
      forall id, s | id in rows && 0 <= s < |b.orders| && id in b.orders[s].lines
        ensures exists i :: 0 <= i < |entries| && entries[i].id == Some(id)
      {
        assert Referenced(b.orders, id) && id in PayloadIds(entries);
      }
    }
  }

  /** A save is accepted exactly for a new quotation or a draft and a payload in order. It writes out the payload,
      each new line on a row of its own in the order given, and leaves every other quotation and order alone. */
  lemma SaveIsExact(b: Book, q: Option<nat>, entries: seq<Entry>, sellable: set<nat>)
    requires Inv(b)
    ensures
      var known := q.Some? && q.value < |b.quotes|;
      Apply(b, OpSave(q, entries, sellable)).Ok? <==>
        && (q.None? || (known && b.quotes[q.value].status == Draft))
        && InOrder(b, if known then b.quotes[q.value].lines else map[], entries, sellable)
    ensures
      var r := Apply(b, OpSave(q, entries, sellable));
      var at := if q.Some? then q.value else |b.quotes|;
      r.Ok? ==>
        && r.value.orders == b.orders && r.value.nextLine == b.nextLine + NewLines(entries)
        && |r.value.quotes| == |b.quotes| + (if q.Some? then 0 else 1) && at < |r.value.quotes|
        && (forall x :: 0 <= x < |b.quotes| && x != at ==> r.value.quotes[x] == b.quotes[x])
        && r.value.quotes[at].status == Draft && r.value.quotes[at].total == PayloadTotal(entries)
        && WrittenOut(r.value.quotes[at].lines, entries, b.nextLine)
  {
    var rows := if q.Some? && q.value < |b.quotes| then b.quotes[q.value].lines else map[];
    GuardIsInOrder(b, rows, entries, sellable);
    if Save(b, q, entries, sellable).Ok? {
      assert q.Some? ==> Below(rows, b.nextLine) by {
        if q.Some? { assert ConvertedExactly(b, q.value) && Below(b.quotes[q.value].lines, b.nextLine); }
      }
      ReconciledIsWrittenOut(rows, entries, b.nextLine);
    }
  }

  /** A save is refused for a reason that holds. */
  lemma SaveErrorsAreTrue(b: Book, q: Option<nat>, entries: seq<Entry>, sellable: set<nat>)
    requires Save(b, q, entries, sellable).Err?
    ensures
      var known := q.Some? && q.value < |b.quotes|;
      var rows := if known then b.quotes[q.value].lines else map[];
      match Save(b, q, entries, sellable).error
      case NotFound => q.Some? && !known
      case NotDraft => known && b.quotes[q.value].status != Draft
      case DuplicateSku => exists i, j :: 0 <= i < j < |entries| && entries[i].line.sku == entries[j].line.sku
      case EditConflict => exists i :: 0 <= i < |entries| && entries[i].id.Some? && entries[i].id.value !in rows
      case LineReferenced =>
        exists id, s :: id in rows && 0 <= s < |b.orders| && id in b.orders[s].lines
                        && forall i :: 0 <= i < |entries| ==> entries[i].id != Some(id)
      case InvalidLine => exists i :: 0 <= i < |entries| && entries[i].line.sku !in sellable
      case _ => false
  {
    var rows := if q.Some? && q.value < |b.quotes| then b.quotes[q.value].lines else map[];
    match Save(b, q, entries, sellable).error
    case EditConflict =>
      var id :| id in PayloadIds(entries) && id !in rows;
      var i :| 0 <= i < |entries| && entries[i].id == Some(id);
    case LineReferenced =>
      var id :| id in rows && id !in PayloadIds(entries) && Referenced(b.orders, id);
      var s :| 0 <= s < |b.orders| && id in b.orders[s].lines;
      forall i | 0 <= i < |entries| ensures entries[i].id != Some(id) {
        if entries[i].id.Some? { assert entries[i].id.value in PayloadIds(entries); }
      }
    case _ =>
  }

  // ---------- The state machines ----------

  /** Each step of a quotation is open from its states alone, and changes its status alone. */
  lemma QuoteStepsAreExact(b: Book, q: nat)
    requires q < |b.quotes|
    ensures
      var quote := b.quotes[q];
      && (Apply(b, OpLock(q)).Ok? <==> quote.status == Draft && quote.lines != map[])
      && (Apply(b, OpLock(q)).Ok? ==> Apply(b, OpLock(q)).value == Book(b.quotes[q := Quote(Locked, quote.lines, quote.total)], b.orders, b.nextLine))
      && (Apply(b, OpUnlock(q)).Ok? <==> quote.status == Locked)
      && (Apply(b, OpUnlock(q)).Ok? ==> Apply(b, OpUnlock(q)).value == Book(b.quotes[q := Quote(Draft, quote.lines, quote.total)], b.orders, b.nextLine))
      && (Apply(b, OpVoid(q)).Ok? <==> quote.status == Draft || quote.status == Locked)
      && (Apply(b, OpVoid(q)).Ok? ==> Apply(b, OpVoid(q)).value == Book(b.quotes[q := Quote(Void, quote.lines, quote.total)], b.orders, b.nextLine))
  {}

  /** Conversion makes one confirmed order with the lines and total of its locked quotation; cancelling a confirmed
      order with nothing hanging on it marks both rows and nothing else. */
  lemma OrderStepsAreExact(b: Book, q: nat, s: nat, purchase: bool, outbound: bool)
    requires Inv(b)
    ensures Apply(b, OpConvert(q)).Ok? <==> q < |b.quotes| && b.quotes[q].status == Locked
    ensures Apply(b, OpConvert(q)).Ok? ==>
              var quote := b.quotes[q];
              Apply(b, OpConvert(q)).value == Book(b.quotes[q := Quote(Converted, quote.lines, quote.total)],
                                          b.orders + [Order(q, Confirmed, quote.lines, quote.total)], b.nextLine)
    ensures Apply(b, OpCancel(s, purchase, outbound)).Ok? <==>
              s < |b.orders| && b.orders[s].status == Confirmed && !purchase && !outbound
    ensures Apply(b, OpCancel(s, purchase, outbound)).Ok? ==>
              var order := b.orders[s];
              && order.quote < |b.quotes|
              && Apply(b, OpCancel(s, purchase, outbound)).value ==
                   Book(b.quotes[order.quote := Quote(Locked, order.lines, order.total)],
                        b.orders[s := Order(order.quote, Cancelled, order.lines, order.total)], b.nextLine)
  {
    CancelNeverBreaks(b, s, purchase, outbound);
    if s < |b.orders| { assert OrderOk(b, s); }
  }
}
