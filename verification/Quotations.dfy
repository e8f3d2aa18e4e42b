/**
 Quotations and the sales orders they become: the reconciling save, the quotation's state
 machine, conversion, and the cancellation that gives the quotation back.

 A quotation line is known by its row id, which the sales order line keeps as its source;
 quantities are thousandths and prices cents.
 */
module Quotations {
  import opened Base
  import opened Rounding

  datatype QuoteStatus = Draft | Locked | Converted | Void

  datatype OrderStatus = Confirmed | Cancelled

  datatype Line = Line(sku: nat, price: nat, qty: nat)

  datatype Quote = Quote(status: QuoteStatus, lines: map<nat, Line>, total: nat)

  datatype Order = Order(quote: nat, status: OrderStatus, lines: map<nat, Line>, total: nat)

  datatype Book = Book(quotes: seq<Quote>, orders: seq<Order>, nextLine: nat)

  /** A payload line: with the id of a loaded row, or without one when it is new. */
  datatype Entry = Entry(id: Option<nat>, line: Line)

  datatype Error =
    | NotFound | NotDraft | DuplicateSku | EditConflict | LineReferenced | InvalidLine
    | EmptyLines | CannotUnlock | CannotVoid | CannotConvert | InvalidTransition
    | HasActivePurchase | HasActiveOutbound | InvariantBroken

  const EMPTY := Book([], [], 0)

  function LineTotal(l: Line): nat { Money(l.qty, l.price) }

  /** The sum of the line totals of the rows with ids below n. */
  function LineSum(lines: map<nat, Line>, n: nat): nat {
    if n == 0 then 0 else LineSum(lines, n - 1) + if n - 1 in lines then LineTotal(lines[n - 1]) else 0
  }

  // ---------- The reconciling save ----------

  datatype Rows = Rows(lines: map<nat, Line>, next: nat, total: nat)

  /** With an id the row is overwritten, without one a row is added; the total adds up every entry. */
  function Written(r: Rows, e: Entry): Rows {
    match e.id
    case Some(id) => Rows(r.lines[id := e.line], r.next, r.total + LineTotal(e.line))
    case None => Rows(r.lines[r.next := e.line], r.next + 1, r.total + LineTotal(e.line))
  }

  function Reconciled(r: Rows, entries: seq<Entry>): Rows {
    if entries == [] then r
    else Written(Reconciled(r, entries[..|entries| - 1]), entries[|entries| - 1])
  }

  function PayloadIds(entries: seq<Entry>): set<nat> {
    set i | 0 <= i < |entries| && entries[i].id.Some? :: entries[i].id.value
  }

  predicate Referenced(orders: seq<Order>, id: nat) {
    exists s :: 0 <= s < |orders| && id in orders[s].lines
  }

  function Kept(lines: map<nat, Line>, entries: seq<Entry>): map<nat, Line> {
    map id | id in lines && id in PayloadIds(entries) :: lines[id]
  }

  /** The refusals of the reconciliation, in the order they are tested. */
  function SaveGuard(b: Book, lines: map<nat, Line>, entries: seq<Entry>, sellable: set<nat>): Option<Error> {
    if exists i, j :: 0 <= i < j < |entries| && entries[i].line.sku == entries[j].line.sku then Some(DuplicateSku)
    else if !(PayloadIds(entries) <= lines.Keys) then Some(EditConflict)
    else if exists id :: id in lines && id !in PayloadIds(entries) && Referenced(b.orders, id) then Some(LineReferenced)
    else if exists i :: 0 <= i < |entries| && entries[i].line.sku !in sellable then Some(InvalidLine)
    else None
  }

  /** A new quotation starts as an empty draft; an existing one must still be a draft. */
  function Save(b: Book, q: Option<nat>, entries: seq<Entry>, sellable: set<nat>): (r: Result<Book, Error>) {
    if q.Some? && q.value >= |b.quotes| then Err(NotFound)
    else if q.Some? && b.quotes[q.value].status != Draft then Err(NotDraft)
    else
      var lines := if q.Some? then b.quotes[q.value].lines else map[];
      match SaveGuard(b, lines, entries, sellable)
      case Some(e) => Err(e)
      case None =>
        var rows := Reconciled(Rows(Kept(lines, entries), b.nextLine, 0), entries);
        var quote := Quote(Draft, rows.lines, rows.total);
        Ok(b.(quotes := if q.Some? then b.quotes[q.value := quote] else b.quotes + [quote], nextLine := rows.next))
  }

  // ---------- The state machines ----------

  function SetQuote(b: Book, q: nat, status: QuoteStatus): Book
    requires q < |b.quotes|
  {
    b.(quotes := b.quotes[q := b.quotes[q].(status := status)])
  }

  /** Only a draft may be locked here: the way back from CONVERTED belongs to the cancellation. */
  function Lock(b: Book, q: nat): (r: Result<Book, Error>) {
    if q >= |b.quotes| then Err(NotFound)
    else if b.quotes[q].status != Draft then Err(NotDraft)
    else if b.quotes[q].lines == map[] then Err(EmptyLines)
    else Ok(SetQuote(b, q, Locked))
  }

  function Unlock(b: Book, q: nat): (r: Result<Book, Error>) {
    if q >= |b.quotes| then Err(NotFound)
    else if b.quotes[q].status == Converted then Err(CannotUnlock)
    else if b.quotes[q].status != Locked then Err(InvalidTransition)
    else Ok(SetQuote(b, q, Draft))
  }

  function VoidQuote(b: Book, q: nat): (r: Result<Book, Error>) {
    if q >= |b.quotes| then Err(NotFound)
    else if b.quotes[q].status != Draft && b.quotes[q].status != Locked then Err(CannotVoid)
    else Ok(SetQuote(b, q, Void))
  }

  function Convert(b: Book, q: nat): (r: Result<Book, Error>) {
    if q >= |b.quotes| then Err(NotFound)
    else if b.quotes[q].status != Locked then Err(CannotConvert)
    else
      var quote := b.quotes[q];
      Ok(SetQuote(b.(orders := b.orders + [Order(q, Confirmed, quote.lines, quote.total)]), q, Converted))
  }

  /** The last test is the service's RuntimeError: its order is cancelled, its quotation not CONVERTED. */
  function CancelOrder(b: Book, s: nat, activePurchase: bool, activeOutbound: bool): (r: Result<Book, Error>) {
    if s >= |b.orders| then Err(NotFound)
    else if b.orders[s].status != Confirmed then Err(InvalidTransition)
    else if activePurchase then Err(HasActivePurchase)
    else if activeOutbound then Err(HasActiveOutbound)
    else
      var o := b.orders[s];
      if o.quote >= |b.quotes| || b.quotes[o.quote].status != Converted then Err(InvariantBroken)
      else Ok(SetQuote(b.(orders := b.orders[s := o.(status := Cancelled)]), o.quote, Locked))
  }

  datatype Op =
    | OpSave(q: Option<nat>, entries: seq<Entry>, sellable: set<nat>)
    | OpLock(quote: nat)
    | OpUnlock(quote: nat)
    | OpVoid(quote: nat)
    | OpConvert(quote: nat)
    | OpCancel(s: nat, activePurchase: bool, activeOutbound: bool)

  function Apply(b: Book, op: Op): Result<Book, Error> {
    match op
    case OpSave(q, entries, sellable) => Save(b, q, entries, sellable)
    case OpLock(q) => Lock(b, q)
    case OpUnlock(q) => Unlock(b, q)
    case OpVoid(q) => VoidQuote(b, q)
    case OpConvert(q) => Convert(b, q)
    case OpCancel(s, purchase, outbound) => CancelOrder(b, s, purchase, outbound)
  }

  /** A refused operation is rolled back. */
  function Step(b: Book, op: Op): Book {
    match Apply(b, op) case Ok(n) => n case Err(_) => b
  }

  function Run(b: Book, ops: seq<Op>): Book
    decreases |ops|
  {
    if ops == [] then b else Run(Step(b, ops[0]), ops[1..])
  }

  // ---------- The invariant ----------

  predicate ActiveFor(b: Book, s: nat, q: nat) {
    s < |b.orders| && b.orders[s].quote == q && b.orders[s].status == Confirmed
  }

  /** CONVERTED exactly when one sales order that is not cancelled refers to the quotation. */
  ghost predicate ConvertedExactly(b: Book, q: nat)
    requires q < |b.quotes|
  {
    && (b.quotes[q].status == Converted <==> exists s :: ActiveFor(b, s, q))
    && (forall s, t :: ActiveFor(b, s, q) && ActiveFor(b, t, q) ==> s == t)
  }

  /** An order refers to lines its quotation still has; an active one has exactly its lines and total. */
  ghost predicate OrderOk(b: Book, s: nat)
    requires s < |b.orders|
  {
    var o := b.orders[s];
    && o.quote < |b.quotes|
    && o.lines.Keys <= b.quotes[o.quote].lines.Keys
    && (o.status == Confirmed ==> o.lines == b.quotes[o.quote].lines && o.total == b.quotes[o.quote].total)
  }

  ghost predicate Below(lines: map<nat, Line>, n: nat) {
    forall id :: id in lines ==> id < n
  }

  ghost predicate Inv(b: Book) {
    && (forall q :: 0 <= q < |b.quotes| ==> ConvertedExactly(b, q) && Below(b.quotes[q].lines, b.nextLine))
    && (forall s :: 0 <= s < |b.orders| ==> OrderOk(b, s))
  }

  lemma {:induction false} ReconciledKeys(r: Rows, entries: seq<Entry>)
    requires Below(r.lines, r.next) && forall id :: id in PayloadIds(entries) ==> id < r.next
    ensures var n := Reconciled(r, entries);
            r.next <= n.next && Below(n.lines, n.next) && r.lines.Keys <= n.lines.Keys
  {
    if entries != [] {
      var front := entries[..|entries| - 1];
      forall id | id in PayloadIds(front) ensures id < r.next {
        var i :| 0 <= i < |front| && front[i].id == Some(id);
        assert entries[i] == front[i] && id in PayloadIds(entries);
      }
      ReconciledKeys(r, front);
      var last := entries[|entries| - 1];
      assert last.id.Some? ==> last.id.value in PayloadIds(entries);
    }
  }

  lemma SaveKeepsInv(b: Book, q: Option<nat>, entries: seq<Entry>, sellable: set<nat>)
    requires Inv(b) && Save(b, q, entries, sellable).Ok?
    ensures Inv(Save(b, q, entries, sellable).value)
  {
    var n := Save(b, q, entries, sellable).value;
    var lines := if q.Some? then b.quotes[q.value].lines else map[];
    var kept := Kept(lines, entries);
    assert q.Some? ==> ConvertedExactly(b, q.value) && Below(lines, b.nextLine);
    assert forall id :: id in PayloadIds(entries) ==> id in lines;
    ReconciledKeys(Rows(kept, b.nextLine, 0), entries);
    forall x | 0 <= x < |n.quotes| ensures ConvertedExactly(n, x) && Below(n.quotes[x].lines, n.nextLine) {
      if x < |b.quotes| {
        assert ConvertedExactly(b, x) && Below(b.quotes[x].lines, b.nextLine);
        assert forall s :: ActiveFor(n, s, x) <==> ActiveFor(b, s, x);
      } else {
        forall s | 0 <= s < |b.orders| ensures b.orders[s].quote != x { assert OrderOk(b, s); }
      }
    }
    forall s | 0 <= s < |n.orders| ensures OrderOk(n, s) {
      assert OrderOk(b, s);
      if q == Some(b.orders[s].quote) {
        assert !ActiveFor(b, s, q.value);
        forall id | id in b.orders[s].lines ensures id in kept {
          assert Referenced(b.orders, id);
        }
      }
    }
  }

  /** A step of the state machine that leaves the orders alone. */
  lemma SetQuoteKeepsInv(b: Book, q: nat, status: QuoteStatus)
    requires Inv(b) && q < |b.quotes| && b.quotes[q].status != Converted && status != Converted
    ensures Inv(SetQuote(b, q, status))
  {
    var n := SetQuote(b, q, status);
    forall x | 0 <= x < |n.quotes| ensures ConvertedExactly(n, x) && Below(n.quotes[x].lines, n.nextLine) {
      assert ConvertedExactly(b, x) && Below(b.quotes[x].lines, b.nextLine);
      assert forall s :: ActiveFor(n, s, x) <==> ActiveFor(b, s, x);
    }
    forall s | 0 <= s < |n.orders| ensures OrderOk(n, s) { assert OrderOk(b, s); }
  }

  lemma ConvertKeepsInv(b: Book, q: nat)
    requires Inv(b) && Convert(b, q).Ok?
    ensures Inv(Convert(b, q).value)
  {
    var n := Convert(b, q).value;
    forall x | 0 <= x < |n.quotes| ensures ConvertedExactly(n, x) && Below(n.quotes[x].lines, n.nextLine) {
      assert ConvertedExactly(b, x) && Below(b.quotes[x].lines, b.nextLine);
      assert forall s: nat :: s < |b.orders| ==> (ActiveFor(n, s, x) <==> ActiveFor(b, s, x));
      assert ActiveFor(n, |b.orders|, x) <==> x == q;
    }
    forall s | 0 <= s < |n.orders| ensures OrderOk(n, s) {
      if s < |b.orders| { assert OrderOk(b, s); }
    }
  }

  lemma CancelKeepsInv(b: Book, s: nat)
    requires Inv(b) && CancelOrder(b, s, false, false).Ok?
    ensures Inv(CancelOrder(b, s, false, false).value)
  {
    var n := CancelOrder(b, s, false, false).value;
    assert ActiveFor(b, s, b.orders[s].quote);
    forall x | 0 <= x < |n.quotes| ensures ConvertedExactly(n, x) && Below(n.quotes[x].lines, n.nextLine) {
      assert ConvertedExactly(b, x) && Below(b.quotes[x].lines, b.nextLine);
      assert forall t :: ActiveFor(n, t, x) <==> ActiveFor(b, t, x) && t != s;
    }
    forall t | 0 <= t < |n.orders| ensures OrderOk(n, t) { assert OrderOk(b, t); }
  }

  lemma StepKeepsInv(b: Book, op: Op)
    requires Inv(b)
    ensures Inv(Step(b, op))
  {
    if Apply(b, op).Ok? {
      match op
      case OpSave(q, entries, sellable) => SaveKeepsInv(b, q, entries, sellable);
      case OpLock(q) => SetQuoteKeepsInv(b, q, Locked);
      case OpUnlock(q) => SetQuoteKeepsInv(b, q, Draft);
      case OpVoid(q) => SetQuoteKeepsInv(b, q, Void);
      case OpConvert(q) => ConvertKeepsInv(b, q);
      case OpCancel(s, _, _) => CancelKeepsInv(b, s);
    }
  }

  lemma {:induction false} RunKeepsInv(b: Book, ops: seq<Op>)
    requires Inv(b)
    ensures Inv(Run(b, ops))
    decreases |ops|
  {
    if ops != [] {
      StepKeepsInv(b, ops[0]);
      RunKeepsInv(Step(b, ops[0]), ops[1..]);
    }
  }

  /** In every reachable state a quotation is CONVERTED exactly when one active order refers to it, that
      order repeats its lines and total, and every line any order refers to still exists. */
  lemma EveryRunKeepsOrdersAndQuotesInStep(ops: seq<Op>, s: nat)
    requires s < |Run(EMPTY, ops).orders|
    ensures
      var b := Run(EMPTY, ops);
      var o := b.orders[s];
      && o.quote < |b.quotes|
      && (forall id :: id in o.lines ==> id in b.quotes[o.quote].lines)
      && (o.status == Confirmed ==>
            && b.quotes[o.quote].status == Converted
            && b.quotes[o.quote].lines == o.lines && b.quotes[o.quote].total == o.total
            && forall t :: ActiveFor(b, t, o.quote) ==> t == s)
    ensures
      var b := Run(EMPTY, ops);
      forall q :: 0 <= q < |b.quotes| && b.quotes[q].status == Converted ==> exists t :: ActiveFor(b, t, q)
  {
    RunKeepsInv(EMPTY, ops);
    var b := Run(EMPTY, ops);
    assert OrderOk(b, s) && ConvertedExactly(b, b.orders[s].quote);
    if b.orders[s].status == Confirmed { assert ActiveFor(b, s, b.orders[s].quote); }
  }

  /** The RuntimeError of the cancellation cannot be raised. */
  lemma CancelNeverBreaks(b: Book, s: nat, purchase: bool, outbound: bool)
    requires Inv(b)
    ensures CancelOrder(b, s, purchase, outbound) != Err(InvariantBroken)
    ensures CancelOrder(b, s, purchase, outbound).Ok? <==>
              s < |b.orders| && b.orders[s].status == Confirmed && !purchase && !outbound
  {
    if s < |b.orders| && b.orders[s].status == Confirmed {
      assert OrderOk(b, s) && ConvertedExactly(b, b.orders[s].quote);
      assert ActiveFor(b, s, b.orders[s].quote);
    }
  }

  /** Converting and cancelling gives the quotation back as it was, leaves the order as a trace,
      and the quotation can be converted again. */
  lemma ConvertThenCancel(b: Book, q: nat)
    requires Inv(b) && Convert(b, q).Ok?
    ensures
      var n := Convert(b, q).value;
      var back := CancelOrder(n, |b.orders|, false, false);
      && Convert(n, q) == Err(CannotConvert) && Unlock(n, q) == Err(CannotUnlock)
      && Lock(n, q) == Err(NotDraft) && VoidQuote(n, q) == Err(CannotVoid)
      && (forall entries, sellable :: Save(n, Some(q), entries, sellable) == Err(NotDraft))
      && back.Ok? && back.value.quotes == b.quotes && back.value.nextLine == b.nextLine
      && back.value.orders == b.orders + [Order(q, Cancelled, b.quotes[q].lines, b.quotes[q].total)]
      && Convert(back.value, q).Ok?
  {
    var n := Convert(b, q).value;
    var back := CancelOrder(n, |b.orders|, false, false).value;
    assert back.quotes == b.quotes;
    assert back.orders == b.orders + [Order(q, Cancelled, b.quotes[q].lines, b.quotes[q].total)];
  }

  /** Locking can be undone, opens the way to conversion and closes it to edits; a void quotation is final. */
  lemma LockThenUnlock(b: Book, q: nat, entries: seq<Entry>, sellable: set<nat>)
    ensures Lock(b, q).Ok? ==>
              var n := Lock(b, q).value;
              && Unlock(n, q) == Ok(b) && Convert(n, q).Ok? && VoidQuote(n, q).Ok?
              && Lock(n, q) == Err(NotDraft) && Save(n, Some(q), entries, sellable) == Err(NotDraft)
    ensures VoidQuote(b, q).Ok? ==>
              var n := VoidQuote(b, q).value;
              && n == b.(quotes := b.quotes[q := b.quotes[q].(status := Void)])
              && Lock(n, q) == Err(NotDraft) && Unlock(n, q) == Err(InvalidTransition)
              && Convert(n, q) == Err(CannotConvert) && VoidQuote(n, q) == Err(CannotVoid)
              && Save(n, Some(q), entries, sellable) == Err(NotDraft)
  {
    if Lock(b, q).Ok? {
      assert Lock(b, q).value.quotes[q := Lock(b, q).value.quotes[q].(status := Draft)] == b.quotes;
    }
  }

  /** What is locked, converted or ordered has lines. */
  ghost predicate NothingEmpty(b: Book) {
    && (forall q :: 0 <= q < |b.quotes| && (b.quotes[q].status == Locked || b.quotes[q].status == Converted)
          ==> b.quotes[q].lines != map[])
    && (forall s :: 0 <= s < |b.orders| ==> b.orders[s].lines != map[])
  }

  /** Only locking tests for lines; no run turns a quotation without lines into an order all the same. */
  lemma {:induction false} NoRunOrdersNothing(b: Book, ops: seq<Op>)
    requires NothingEmpty(b)
    ensures NothingEmpty(Run(b, ops))
    decreases |ops|
  {
    if ops != [] { NoRunOrdersNothing(Step(b, ops[0]), ops[1..]); }
  }

  // ---------- Totals ----------

  lemma {:induction false} LineSumUpdate(lines: map<nat, Line>, id: nat, l: Line, n: nat)
    ensures LineSum(lines[id := l], n) == LineSum(lines, n)
      + if id < n then LineTotal(l) - (if id in lines then LineTotal(lines[id]) else 0) else 0
  {
    if n > 0 { LineSumUpdate(lines, id, l, n - 1); }
  }

  lemma {:induction false} LineSumBelow(lines: map<nat, Line>, n: nat, m: nat)
    requires Below(lines, n) && n <= m
    ensures LineSum(lines, m) == LineSum(lines, n)
  {
    if n < m { LineSumBelow(lines, n, m - 1); }
  }

  lemma {:induction false} LineSumEmpty(n: nat)
    ensures LineSum(map[], n) == 0
  {
    if n > 0 { LineSumEmpty(n - 1); }
  }

  /** No entry that carries money repeats its row id later in the payload. */
  predicate NothingOverwritten(entries: seq<Entry>) {
    forall i, j :: 0 <= i < j < |entries| && entries[i].id.Some? && entries[i].id == entries[j].id
      ==> LineTotal(entries[i].line) == 0
  }

  /** Rows as they would be written into an empty quotation. */
  function Fresh(entries: seq<Entry>, next: nat): Rows {
    Reconciled(Rows(map[], next, 0), entries)
  }

  /** Every kept row is overwritten, so the rows depend on the payload alone. */
  lemma {:induction false} KeptRowsAreOverwritten(kept: map<nat, Line>, next: nat, entries: seq<Entry>)
    ensures
      var r := Reconciled(Rows(kept, next, 0), entries);
      var f := Fresh(entries, next);
      && r.next == f.next && r.total == f.total
      && (forall id :: id in f.lines ==> id in r.lines && r.lines[id] == f.lines[id])
      && (forall id :: id in r.lines ==> id in f.lines || id in kept)
      && (forall id :: id in PayloadIds(entries) ==> id in f.lines)
  {
    if entries != [] {
      var front := entries[..|entries| - 1];
      KeptRowsAreOverwritten(kept, next, front);
      forall id | id in PayloadIds(entries) ensures id in Fresh(entries, next).lines {
        var i :| 0 <= i < |entries| && entries[i].id == Some(id);
        if i < |front| { assert front[i] == entries[i] && id in PayloadIds(front); }
      }
    }
  }

  lemma {:induction false} NextGrows(entries: seq<Entry>, next: nat)
    ensures next <= Fresh(entries, next).next <= next + |entries|
  {
    if entries != [] { NextGrows(entries[..|entries| - 1], next); }
  }

  /** The row of an id is the last entry that carries it. */
  lemma {:induction false} RowIsTheLastEntry(entries: seq<Entry>, next: nat, id: nat)
    requires id < next
    ensures id in Fresh(entries, next).lines <==> exists i :: 0 <= i < |entries| && entries[i].id == Some(id)
    ensures id in Fresh(entries, next).lines ==>
              exists i :: 0 <= i < |entries| && entries[i].id == Some(id)
                && Fresh(entries, next).lines[id] == entries[i].line
                && forall j :: i < j < |entries| ==> entries[j].id != Some(id)
  {
    if entries != [] {
      var n := |entries| - 1;
      var front := entries[..n];
      RowIsTheLastEntry(front, next, id);
      NextGrows(front, next);
      if entries[n].id != Some(id) && id in Fresh(front, next).lines {
        var i :| 0 <= i < |front| && front[i].id == Some(id) && Fresh(front, next).lines[id] == front[i].line
          && forall j :: i < j < |front| ==> front[j].id != Some(id);
        assert entries[i] == front[i];
      }
    }
  }

  lemma OverwrittenStep(entries: seq<Entry>, next: nat)
    requires entries != [] && forall id :: id in PayloadIds(entries) ==> id < next
    ensures
      var n := |entries| - 1;
      var last := entries[n];
      var before := Fresh(entries[..n], next).lines;
      NothingOverwritten(entries) <==>
        NothingOverwritten(entries[..n])
        && (last.id.Some? && last.id.value in before ==> LineTotal(before[last.id.value]) == 0)
  {
    var n := |entries| - 1;
    var last, front := entries[n], entries[..n];
    if last.id.Some? {
      assert last.id.value in PayloadIds(entries);
      RowIsTheLastEntry(front, next, last.id.value);
    }
    if NothingOverwritten(front) && (last.id.Some? && last.id.value in Fresh(front, next).lines
                                     ==> LineTotal(Fresh(front, next).lines[last.id.value]) == 0) {
      forall i, j | 0 <= i < j < |entries| && entries[i].id.Some? && entries[i].id == entries[j].id
        ensures LineTotal(entries[i].line) == 0
      {
        if j == n {
          var k :| 0 <= k < |front| && front[k].id == last.id
            && Fresh(front, next).lines[last.id.value] == front[k].line
            && forall m :: k < m < |front| ==> front[m].id != last.id;
          assert front[i] == entries[i];
        } else {
          assert front[i] == entries[i] && front[j] == entries[j];
        }
      }
    }
    if NothingOverwritten(entries) {
      forall i, j | 0 <= i < j < |front| && front[i].id.Some? && front[i].id == front[j].id
        ensures LineTotal(front[i].line) == 0
      {
        assert front[i] == entries[i] && front[j] == entries[j];
      }
      if last.id.Some? && last.id.value in Fresh(front, next).lines {
        var k :| 0 <= k < |front| && front[k].id == last.id
          && Fresh(front, next).lines[last.id.value] == front[k].line;
        assert entries[k] == front[k];
      }
    }
  }

  lemma {:induction false} TotalsOfRows(entries: seq<Entry>, next: nat)
    requires forall id :: id in PayloadIds(entries) ==> id < next
    ensures
      var f := Fresh(entries, next);
      && Below(f.lines, f.next) && LineSum(f.lines, f.next) <= f.total
      && (LineSum(f.lines, f.next) == f.total <==> NothingOverwritten(entries))
  {
    if entries == [] {
      LineSumEmpty(next);
    } else {
      var n := |entries| - 1;
      var last, front := entries[n], entries[..n];
      forall id | id in PayloadIds(front) ensures id < next {
        var i :| 0 <= i < |front| && front[i].id == Some(id);
        assert entries[i] == front[i] && id in PayloadIds(entries);
      }
      TotalsOfRows(front, next);
      OverwrittenStep(entries, next);
      NextGrows(front, next);
      var f := Fresh(front, next);
      if last.id.Some? {
        assert last.id.value in PayloadIds(entries);
        LineSumUpdate(f.lines, last.id.value, last.line, f.next);
      } else {
        LineSumUpdate(f.lines, f.next, last.line, f.next + 1);
        LineSumBelow(f.lines, f.next, f.next + 1);
      }
    }
  }

  function SavedAt(b: Book, q: Option<nat>): nat {
    if q.Some? then q.value else |b.quotes|
  }

  /** The stored total is never below the sum of the line totals, and equals it exactly when the payload
      does not write a priced row twice. */
  lemma SavedTotalIsTheSumExactlyWhen(b: Book, q: Option<nat>, entries: seq<Entry>, sellable: set<nat>)
    requires Inv(b) && Save(b, q, entries, sellable).Ok?
    ensures
      var n := Save(b, q, entries, sellable).value;
      && SavedAt(b, q) < |n.quotes|
      && var quote := n.quotes[SavedAt(b, q)];
      && LineSum(quote.lines, n.nextLine) <= quote.total
      && (quote.total == LineSum(quote.lines, n.nextLine) <==> NothingOverwritten(entries))
  {
    var lines := if q.Some? then b.quotes[q.value].lines else map[];
    assert q.Some? ==> Below(lines, b.nextLine) by {
      if q.Some? { assert ConvertedExactly(b, q.value) && Below(b.quotes[q.value].lines, b.nextLine); }
    }
    assert forall id :: id in PayloadIds(entries) ==> id in lines;
    KeptRowsAreOverwritten(Kept(lines, entries), b.nextLine, entries);
    TotalsOfRows(entries, b.nextLine);
    var r := Reconciled(Rows(Kept(lines, entries), b.nextLine, 0), entries);
    assert r.lines == Fresh(entries, b.nextLine).lines;
  }

  ghost predicate TotalsAreSums(b: Book) {
    && (forall q :: 0 <= q < |b.quotes| ==>
          Below(b.quotes[q].lines, b.nextLine) && b.quotes[q].total == LineSum(b.quotes[q].lines, b.nextLine))
    && (forall s :: 0 <= s < |b.orders| ==>
          Below(b.orders[s].lines, b.nextLine) && b.orders[s].total == LineSum(b.orders[s].lines, b.nextLine))
  }

  lemma CleanStepKeepsSums(b: Book, op: Op)
    requires Inv(b) && TotalsAreSums(b) && (op.OpSave? ==> NothingOverwritten(op.entries))
    ensures TotalsAreSums(Step(b, op))
  {
    if op.OpSave? && Apply(b, op).Ok? {
      var n := Step(b, op);
      SavedTotalIsTheSumExactlyWhen(b, op.q, op.entries, op.sellable);
      SaveKeepsInv(b, op.q, op.entries, op.sellable);
      var lines := if op.q.Some? then b.quotes[op.q.value].lines else map[];
      assert forall id :: id in PayloadIds(op.entries) ==> id in lines;
      ReconciledKeys(Rows(Kept(lines, op.entries), b.nextLine, 0), op.entries);
      forall q | 0 <= q < |n.quotes| && q != SavedAt(b, op.q)
        ensures n.quotes[q].total == LineSum(n.quotes[q].lines, n.nextLine)
      {
        LineSumBelow(b.quotes[q].lines, b.nextLine, n.nextLine);
      }
      forall q | 0 <= q < |n.quotes| ensures Below(n.quotes[q].lines, n.nextLine) {
        assert ConvertedExactly(n, q) && Below(n.quotes[q].lines, n.nextLine);
      }
      forall s | 0 <= s < |n.orders| ensures n.orders[s].total == LineSum(n.orders[s].lines, n.nextLine) {
        LineSumBelow(b.orders[s].lines, b.nextLine, n.nextLine);
      }
    }
  }

  /** While no save writes a priced row twice, every quotation and sales order total is the sum of its lines. */
  lemma {:induction false} CleanRunsKeepSums(b: Book, ops: seq<Op>)
    requires Inv(b) && TotalsAreSums(b)
    requires forall i :: 0 <= i < |ops| && ops[i].OpSave? ==> NothingOverwritten(ops[i].entries)
    ensures TotalsAreSums(Run(b, ops))
    decreases |ops|
  {
    if ops != [] {
      CleanStepKeepsSums(b, ops[0]);
      StepKeepsInv(b, ops[0]);
      CleanRunsKeepSums(Step(b, ops[0]), ops[1..]);
    }
  }

  const TWICE := [Entry(Some(0), Line(1, 100, 1000)), Entry(Some(0), Line(2, 50, 1000))]

  /** A payload that names one row twice, with two products, leaves one row and the total of both. */
  lemma RowNamedTwiceInflatesTheTotal()
    ensures
      var b := Book([Quote(Draft, map[0 := Line(1, 100, 1000)], 100)], [], 1);
      var r := Save(b, Some(0), TWICE, {1, 2});
      && Inv(b) && TotalsAreSums(b) && r.Ok?
      && r.value.quotes[0] == Quote(Draft, map[0 := Line(2, 50, 1000)], 150)
  {
    var lines := map[0 := Line(1, 100, 1000)];
    assert TWICE[0].id.value in PayloadIds(TWICE);
    assert PayloadIds(TWICE) == {0};
    assert Kept(lines, TWICE) == lines;
    var single := TWICE[..|TWICE| - 1];
    assert single == [TWICE[0]] && single[..|single| - 1] == [];
    assert Reconciled(Rows(lines, 1, 0), single[..|single| - 1]) == Rows(lines, 1, 0);
    var one := Reconciled(Rows(lines, 1, 0), single);
    assert one == Written(Rows(lines, 1, 0), TWICE[0]);
    assert Reconciled(Rows(lines, 1, 0), TWICE) == Written(one, TWICE[1]);
    assert LineSum(lines, 1) == LineSum(lines, 0) + 100;
    assert one.lines[0 := Line(2, 50, 1000)] == map[0 := Line(2, 50, 1000)];
  }

  // ---------- The service ----------

  /** quotation_service and sales_order_service over their tables. */
  class BookService {
    var quotes: seq<Quote>
    var orders: seq<Order>
    var nextLine: nat

    function Contents(): Book
      reads this
    {
      Book(quotes, orders, nextLine)
    }

    constructor ()
      ensures Contents() == EMPTY && Inv(Contents())
    {
      quotes, orders, nextLine := [], [], 0;
    }

    /** _reconcile_lines after its guards: rows are overwritten or added while the total runs along. */
    method Reconcile(kept: map<nat, Line>, entries: seq<Entry>) returns (lines: map<nat, Line>, total: nat)
      modifies this`nextLine
      ensures Rows(lines, nextLine, total) == Reconciled(Rows(kept, old(nextLine), 0), entries)
    {
      lines, total := kept, 0;
      for i := 0 to |entries|
        invariant Rows(lines, nextLine, total) == Reconciled(Rows(kept, old(nextLine), 0), entries[..i])
      {
        var e := entries[i];
        assert entries[..i + 1][..i] == entries[..i];
        total := total + LineTotal(e.line);
        match e.id {
          case Some(id) =>
            lines := lines[id := e.line];
          case None =>
            lines := lines[nextLine := e.line];
            nextLine := nextLine + 1;
        }
      }
      assert entries[..|entries|] == entries;
    }

    method SaveQuote(q: Option<nat>, entries: seq<Entry>, sellable: set<nat>) returns (r: Result<nat, Error>)
      modifies this
      ensures Contents() == Step(old(Contents()), OpSave(q, entries, sellable))
      ensures r == match Save(old(Contents()), q, entries, sellable)
                   case Ok(_) => Ok(SavedAt(old(Contents()), q))
                   case Err(e) => Err(e)
    {
      if q.Some? && q.value >= |quotes| { return Err(NotFound); }
      if q.Some? && quotes[q.value].status != Draft { return Err(NotDraft); }
      var before := if q.Some? then quotes[q.value].lines else map[];
      match SaveGuard(Contents(), before, entries, sellable) {
        case Some(e) => return Err(e);
        case None =>
      }
      var lines, total := Reconcile(Kept(before, entries), entries);
      if q.Some? {
        quotes := quotes[q.value := Quote(Draft, lines, total)];
        r := Ok(q.value);
      } else {
        r := Ok(|quotes|);
        quotes := quotes + [Quote(Draft, lines, total)];
      }
    }

    method ConvertQuote(q: nat) returns (r: Result<nat, Error>)
      modifies this`quotes, this`orders
      ensures Contents() == Step(old(Contents()), OpConvert(q))
      ensures r == match Convert(old(Contents()), q) case Ok(_) => Ok(old(|orders|)) case Err(e) => Err(e)
    {
      if q >= |quotes| { return Err(NotFound); }
      var quote := quotes[q];
      if quote.status != Locked { return Err(CannotConvert); }
      r := Ok(|orders|);
      orders := orders + [Order(q, Confirmed, quote.lines, quote.total)];
      quotes := quotes[q := quote.(status := Converted)];
    }

    /** Under the invariant the quotation is CONVERTED, so the service's RuntimeError has no branch here. */
    method CancelSalesOrder(s: nat, activePurchase: bool, activeOutbound: bool) returns (r: Result<(), Error>)
      requires Inv(Contents())
      modifies this`quotes, this`orders
      ensures Contents() == Step(old(Contents()), OpCancel(s, activePurchase, activeOutbound))
      ensures r.Ok? <==> CancelOrder(old(Contents()), s, activePurchase, activeOutbound).Ok?
      ensures r.Err? ==> Err(r.error) == CancelOrder(old(Contents()), s, activePurchase, activeOutbound)
    {
      CancelNeverBreaks(Contents(), s, activePurchase, activeOutbound);
      if s >= |orders| { return Err(NotFound); }
      if orders[s].status != Confirmed { return Err(InvalidTransition); }
      if activePurchase { return Err(HasActivePurchase); }
      if activeOutbound { return Err(HasActiveOutbound); }
      var q := orders[s].quote;
      orders := orders[s := orders[s].(status := Cancelled)];
      quotes := quotes[q := quotes[q].(status := Locked)];
      r := Ok(());
    }
  }
}
