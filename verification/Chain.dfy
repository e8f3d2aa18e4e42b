/**
 The document chain below the sales order: purchase orders, inbound orders, purchase returns
 and inventory dispositions, with the guards that tie one document's state to another's.

 Every line, at every level, is known by the sales order line it comes from: a purchase
 order has at most one line for each, an inbound order at most one for each of those, and so
 on. Quantities are thousandths. Each operation is one transaction.
 */
module Chain {
  import opened Base
  import opened Sums
  import opened Rounding
  import Quotations

  type Lines = map<nat, nat>

  datatype PoStatus = PoDraft | PoConfirmed | PoCancelled

  datatype PoLine = PoLine(price: nat, qty: nat)

  datatype Po = Po(so: nat, status: PoStatus, lines: map<nat, PoLine>)

  datatype InStatus = InTransit | Received | InCancelled | Closed

  /** `payable` is the amount of the supplier's account, opened with the inbound order. */
  datatype Inbound = Inbound(po: nat, status: InStatus, lines: Lines, payable: int)

  datatype ReturnStatus = Pending | Approved | Rejected | Returned

  /** A purchase return, or (`whole`) the cancellation of an inbound order still in transit. */
  datatype Return = Return(inbound: nat, whole: bool, status: ReturnStatus, lines: Lines, total: int)

  datatype DispositionStatus = PendingReceipt | Held | ClosedWithoutReceipt | DispositionVoided

  datatype Disposition = Disposition(inbound: nat, status: DispositionStatus, lines: Lines, cost: int)

  datatype Handling = CloseWithoutReceipt | ReceiveToDisposition

  datatype Docs = Docs(
    book: Quotations.Book, pos: seq<Po>, inbounds: seq<Inbound>,
    reversals: seq<Return>, disps: seq<Disposition>)

  const EMPTY := Docs(Quotations.EMPTY, [], [], [], [])

  datatype Error =
    | NotFound | Empty | SourceInvalid | NotDraft | InvalidTransition
    | OverQuota | OverReceipt | OverReturn
    | HasActiveInbound | FinancialBoundary | StockShort
    | InBook(error: Quotations.Error)

  /** A line of a return request: the payload may repeat or invent a line. */
  datatype Entry = Entry(line: nat, qty: nat)

  // ---------- The aggregates ----------

  predicate Ordering(p: Po) { p.status != PoCancelled }

  predicate Arriving(i: Inbound) { i.status == InTransit || i.status == Received }

  /** The quota of a purchase order line also counts what was closed without receipt. */
  predicate Inbounding(i: Inbound) { Arriving(i) || i.status == Closed }

  predicate Reversing(r: Return) { r.status != Rejected }

  predicate Open(r: Return) { r.status == Pending || r.status == Approved }

  function QtyOf(lines: Lines, k: nat): nat {
    if k in lines then lines[k] else 0
  }

  function OrderedOn(so: nat, k: nat): Po -> int {
    (p: Po) => if Ordering(p) && p.so == so && k in p.lines then p.lines[k].qty else 0
  }

  function InboundedOn(po: nat, k: nat): Inbound -> int {
    (i: Inbound) => if Inbounding(i) && i.po == po then QtyOf(i.lines, k) else 0
  }

  function ReversedOn(i: nat, k: nat): Return -> int {
    (r: Return) => if Reversing(r) && r.inbound == i then QtyOf(r.lines, k) else 0
  }

  function DisposedOn(i: nat, k: nat): Disposition -> int {
    (x: Disposition) => if x.status != DispositionVoided && x.inbound == i then QtyOf(x.lines, k) else 0
  }

  function Ordered(pos: seq<Po>, so: nat, k: nat): int { SumOf(pos, OrderedOn(so, k)) }

  function Inbounded(inbounds: seq<Inbound>, po: nat, k: nat): int { SumOf(inbounds, InboundedOn(po, k)) }

  function Reversed(reversals: seq<Return>, i: nat, k: nat): int { SumOf(reversals, ReversedOn(i, k)) }

  function Disposed(disps: seq<Disposition>, i: nat, k: nat): int { SumOf(disps, DisposedOn(i, k)) }

  function LineAmounts(lines: Lines, prices: map<nat, PoLine>): map<nat, int> {
    map k | k in lines :: if k in prices then Money(lines[k], prices[k].price) else 0
  }

  /** The amount of some quantities at a purchase order's prices, rounded line by line. */
  ghost function Amount(lines: Lines, prices: map<nat, PoLine>): int {
    MapSum(LineAmounts(lines, prices))
  }

  predicate Known<T>(lines: map<nat, T>, of: set<nat>) {
    lines != map[] && lines.Keys <= of
  }

  // ---------- Sales orders and purchase orders ----------

  predicate HasPurchase(d: Docs, s: nat) {
    exists p :: 0 <= p < |d.pos| && d.pos[p].so == s && Ordering(d.pos[p])
  }

  /** A sales order is cancelled only when no purchase order of its is left. */
  function OnBook(d: Docs, op: Quotations.Op): (r: Result<Docs, Error>) {
    var guarded := if op.OpCancel? then op.(activePurchase := HasPurchase(d, op.s)) else op;
    match Quotations.Apply(d.book, guarded)
    case Ok(b) => Ok(d.(book := b))
    case Err(e) => Err(InBook(e))
  }

  predicate SourceOrder(d: Docs, so: nat) {
    so < |d.book.orders| && d.book.orders[so].status == Quotations.Confirmed
  }

  predicate WithinQuota(d: Docs, so: nat, lines: map<nat, PoLine>, others: seq<Po>)
    requires so < |d.book.orders|
  {
    forall k :: k in lines && k in d.book.orders[so].lines ==>
      Ordered(others, so, k) + lines[k].qty <= d.book.orders[so].lines[k].qty
  }

  function CreatePo(d: Docs, so: nat, lines: map<nat, PoLine>): (r: Result<Docs, Error>) {
    if lines == map[] then Err(Empty)
    else if !SourceOrder(d, so) || !Known(lines, d.book.orders[so].lines.Keys) then Err(SourceInvalid)
    else if !WithinQuota(d, so, lines, d.pos) then Err(OverQuota)
    else Ok(d.(pos := d.pos + [Po(so, PoDraft, lines)]))
  }

  /** The table without one order, for checks that leave the edited order out. */
  function Without(pos: seq<Po>, p: nat): seq<Po>
    requires p < |pos|
  {
    pos[p := pos[p].(lines := map[])]
  }

  function SetPo(d: Docs, p: nat, status: PoStatus): Docs
    requires p < |d.pos|
  {
    d.(pos := d.pos[p := d.pos[p].(status := status)])
  }

  function SavePo(d: Docs, p: nat, lines: map<nat, PoLine>): (r: Result<Docs, Error>) {
    if p >= |d.pos| then Err(NotFound)
    else if d.pos[p].status != PoDraft then Err(NotDraft)
    else if lines == map[] then Err(Empty)
    else
      var so := d.pos[p].so;
      if !SourceOrder(d, so) || !Known(lines, d.book.orders[so].lines.Keys) then Err(SourceInvalid)
      else if !WithinQuota(d, so, lines, Without(d.pos, p)) then Err(OverQuota)
      else Ok(d.(pos := d.pos[p := d.pos[p].(lines := lines)]))
  }

  function ConfirmPo(d: Docs, p: nat): (r: Result<Docs, Error>) {
    if p >= |d.pos| then Err(NotFound)
    else if d.pos[p].status != PoDraft then Err(InvalidTransition)
    else if d.pos[p].lines == map[] then Err(Empty)
    else if d.pos[p].so >= |d.book.orders| || !WithinQuota(d, d.pos[p].so, d.pos[p].lines, Without(d.pos, p)) then
      Err(OverQuota)
    else Ok(SetPo(d, p, PoConfirmed))
  }

  predicate HasActiveInboundOrder(d: Docs, p: nat) {
    exists i :: 0 <= i < |d.inbounds| && d.inbounds[i].po == p && Arriving(d.inbounds[i])
  }

  function CancelPo(d: Docs, p: nat): (r: Result<Docs, Error>) {
    if p >= |d.pos| then Err(NotFound)
    else if d.pos[p].status == PoCancelled then Err(InvalidTransition)
    else if HasActiveInboundOrder(d, p) then Err(HasActiveInbound)
    else Ok(SetPo(d, p, PoCancelled))
  }

  // ---------- Inbound orders ----------

  predicate OverReceives(d: Docs, p: nat, lines: Lines)
    requires p < |d.pos|
  {
    exists k :: k in lines && k in d.pos[p].lines && Inbounded(d.inbounds, p, k) + lines[k] > d.pos[p].lines[k].qty
  }

  ghost function CreateInbound(d: Docs, p: nat, lines: Lines): (r: Result<Docs, Error>) {
    if lines == map[] then Err(Empty)
    else if p >= |d.pos| || d.pos[p].status != PoConfirmed then Err(SourceInvalid)
    else if !Known(lines, d.pos[p].lines.Keys) then Err(SourceInvalid)
    else if OverReceives(d, p, lines) then Err(OverReceipt)
    else Ok(d.(inbounds := d.inbounds + [Inbound(p, InTransit, lines, Amount(lines, d.pos[p].lines))]))
  }

  predicate HasOpenReturn(d: Docs, i: nat) {
    exists r :: 0 <= r < |d.reversals| && d.reversals[r].inbound == i && Open(d.reversals[r])
  }

  predicate HasDisposition(d: Docs, i: nat) {
    exists x :: 0 <= x < |d.disps| && d.disps[x].inbound == i && d.disps[x].status != DispositionVoided
  }

  predicate Awaiting(x: Disposition, i: nat) { x.inbound == i && x.status == PendingReceipt }

  /** Receiving turns a disposition that waits for the goods into held stock. */
  function HeldOnReceipt(disps: seq<Disposition>, i: nat): (r: seq<Disposition>)
    ensures |r| == |disps|
    ensures forall x :: 0 <= x < |disps| ==>
              r[x] == if Awaiting(disps[x], i) then disps[x].(status := Held) else disps[x]
  {
    seq(|disps|, x requires 0 <= x < |disps| => if Awaiting(disps[x], i) then disps[x].(status := Held) else disps[x])
  }

  function SetInbound(d: Docs, i: nat, status: InStatus): Docs
    requires i < |d.inbounds|
  {
    d.(inbounds := d.inbounds[i := d.inbounds[i].(status := status)])
  }

  predicate HasAwaiting(d: Docs, i: nat) {
    exists x :: 0 <= x < |d.disps| && Awaiting(d.disps[x], i)
  }

  function Receive(d: Docs, i: nat, stock: bool): (r: Result<Docs, Error>) {
    if i >= |d.inbounds| then Err(NotFound)
    else if d.inbounds[i].status != InTransit then Err(InvalidTransition)
    else if HasOpenReturn(d, i) then Err(FinancialBoundary)
    else if HasAwaiting(d, i) && !stock then Err(StockShort)
    else Ok(SetInbound(d, i, Received).(disps := HeldOnReceipt(d.disps, i)))
  }

  function Unreceive(d: Docs, i: nat, stock: bool): (r: Result<Docs, Error>) {
    if i >= |d.inbounds| then Err(NotFound)
    else if d.inbounds[i].status != Received then Err(InvalidTransition)
    else if HasOpenReturn(d, i) then Err(FinancialBoundary)
    else if HasDisposition(d, i) then Err(SourceInvalid)
    else if !stock then Err(StockShort)
    else Ok(SetInbound(d, i, InTransit))
  }

  // ---------- Purchase returns ----------

  function Left(d: Docs, i: nat, k: nat): int
    requires i < |d.inbounds|
  {
    QtyOf(d.inbounds[i].lines, k) - Reversed(d.reversals, i, k)
  }

  /** What the payload loop says of one line, given the lines before it. */
  function EntryError(d: Docs, i: nat, entries: seq<Entry>, n: nat): Option<Error>
    requires i < |d.inbounds| && n < |entries|
  {
    if exists m :: 0 <= m < n && entries[m].line == entries[n].line then Some(OverReturn)
    else if entries[n].line !in d.inbounds[i].lines then Some(SourceInvalid)
    else if entries[n].qty > Left(d, i, entries[n].line) then Some(OverReturn)
    else None
  }

  function FirstError(d: Docs, i: nat, entries: seq<Entry>, n: nat): Option<Error>
    requires i < |d.inbounds| && n <= |entries|
    decreases |entries| - n
  {
    if n == |entries| then None
    else if EntryError(d, i, entries, n).Some? then EntryError(d, i, entries, n)
    else FirstError(d, i, entries, n + 1)
  }

  function EntryLines(entries: seq<Entry>): Lines {
    if entries == [] then map[]
    else
      var last := entries[|entries| - 1];
      EntryLines(entries[..|entries| - 1])[last.line := last.qty]
  }

  function PricesOf(d: Docs, i: nat): map<nat, PoLine>
    requires i < |d.inbounds|
  {
    if d.inbounds[i].po < |d.pos| then d.pos[d.inbounds[i].po].lines else map[]
  }

  ghost function NewReturn(d: Docs, i: nat, whole: bool, lines: Lines): Docs
    requires i < |d.inbounds|
  {
    d.(reversals := d.reversals + [Return(i, whole, Pending, lines, Amount(lines, PricesOf(d, i)))])
  }

  ghost function CreateReturn(d: Docs, i: nat, entries: seq<Entry>, outbound: bool): (r: Result<Docs, Error>) {
    if entries == [] then Err(Empty)
    else if i >= |d.inbounds| then Err(NotFound)
    else if d.inbounds[i].status != Received || outbound || HasDisposition(d, i) then Err(SourceInvalid)
    else
      match FirstError(d, i, entries, 0)
      case Some(e) => Err(e)
      case None => Ok(NewReturn(d, i, false, EntryLines(entries)))
  }

  predicate PartlyReversed(d: Docs, i: nat)
    requires i < |d.inbounds|
  {
    exists k :: k in d.inbounds[i].lines && d.inbounds[i].lines[k] > Left(d, i, k)
  }

  /** The whole inbound order, or nothing. */
  ghost function CreateCancellation(d: Docs, i: nat, outbound: bool): (r: Result<Docs, Error>) {
    if i >= |d.inbounds| then Err(NotFound)
    else if d.inbounds[i].status != InTransit || outbound || HasOpenReturn(d, i) || HasDisposition(d, i) then
      Err(SourceInvalid)
    else if d.inbounds[i].lines == map[] then Err(Empty)
    else if PartlyReversed(d, i) then Err(OverReturn)
    else Ok(NewReturn(d, i, true, d.inbounds[i].lines))
  }

  function SetReturn(d: Docs, r: nat, status: ReturnStatus): Docs
    requires r < |d.reversals|
  {
    d.(reversals := d.reversals[r := d.reversals[r].(status := status)])
  }

  function Judge(d: Docs, r: nat, status: ReturnStatus): (res: Result<Docs, Error>) {
    if r >= |d.reversals| then Err(NotFound)
    else if d.reversals[r].status != Pending then Err(SourceInvalid)
    else Ok(SetReturn(d, r, status))
  }

  function ConfirmReturn(d: Docs, r: nat, outbound: bool, stock: bool): (res: Result<Docs, Error>) {
    if r >= |d.reversals| then Err(NotFound)
    else if d.reversals[r].status != Approved || d.reversals[r].whole || outbound then Err(SourceInvalid)
    else if !stock then Err(StockShort)
    else Ok(SetReturn(d, r, Returned))
  }

  function ConfirmCancellation(d: Docs, r: nat, outbound: bool): (res: Result<Docs, Error>) {
    if r >= |d.reversals| then Err(NotFound)
    else if d.reversals[r].status != Approved || !d.reversals[r].whole || outbound then Err(SourceInvalid)
    else
      var i := d.reversals[r].inbound;
      if i >= |d.inbounds| then Err(NotFound)
      else if d.inbounds[i].status != InTransit then Err(InvalidTransition)
      else Ok(SetReturn(SetInbound(d, i, InCancelled), r, Returned))
  }

  // ---------- Inventory dispositions ----------

  /** Everything not yet reversed, line by line. */
  function LeftLines(d: Docs, i: nat): Lines
    requires i < |d.inbounds|
  {
    map k | k in d.inbounds[i].lines && Left(d, i, k) > 0 :: Left(d, i, k)
  }

  function DispositionState(received: bool, handling: Handling): DispositionStatus {
    if received then Held
    else if handling == CloseWithoutReceipt then ClosedWithoutReceipt
    else PendingReceipt
  }

  ghost function Dispose(d: Docs, i: nat, handling: Handling, outbound: bool, stock: bool): (r: Result<Docs, Error>) {
    if i >= |d.inbounds| then Err(NotFound)
    else if !Arriving(d.inbounds[i]) then Err(SourceInvalid)
    else
      var received := d.inbounds[i].status == Received;
      if received && handling == CloseWithoutReceipt then Err(SourceInvalid)
      else if outbound || HasOpenReturn(d, i) || HasDisposition(d, i) then Err(SourceInvalid)
      else if d.inbounds[i].lines == map[] then Err(Empty)
      else if LeftLines(d, i) == map[] then Err(OverReturn)
      else if received && !stock then Err(StockShort)
      else
        var lines := LeftLines(d, i);
        var x := Disposition(i, DispositionState(received, handling), lines, Amount(lines, PricesOf(d, i)));
        var n := d.(disps := d.disps + [x]);
        Ok(if x.status == ClosedWithoutReceipt then SetInbound(n, i, Closed) else n)
  }

  // ---------- Steps ----------

  datatype Op =
    | OpBook(op: Quotations.Op)
    | OpCreatePo(so: nat, poLines: map<nat, PoLine>)
    | OpSavePo(p: nat, poLines: map<nat, PoLine>)
    | OpConfirmPo(p: nat)
    | OpCancelPo(p: nat)
    | OpCreateInbound(p: nat, lines: Lines)
    | OpReceive(i: nat, stock: bool)
    | OpUnreceive(i: nat, stock: bool)
    | OpCreateReturn(i: nat, entries: seq<Entry>, outbound: bool)
    | OpCreateCancellation(i: nat, outbound: bool)
    | OpApprove(r: nat)
    | OpReject(r: nat)
    | OpConfirmReturn(r: nat, outbound: bool, stock: bool)
    | OpConfirmCancellation(r: nat, outbound: bool)
    | OpDispose(i: nat, handling: Handling, outbound: bool, stock: bool)

  /** The request schemas admit positive quantities only. */
  predicate Acceptable(op: Op) {
    match op
    case OpCreatePo(_, lines) => forall k :: k in lines ==> lines[k].qty > 0
    case OpSavePo(_, lines) => forall k :: k in lines ==> lines[k].qty > 0
    case OpCreateInbound(_, lines) => forall k :: k in lines ==> lines[k] > 0
    case OpCreateReturn(_, entries, _) => forall n :: 0 <= n < |entries| ==> entries[n].qty > 0
    case _ => true
  }

  ghost function Apply(d: Docs, op: Op): Result<Docs, Error> {
    match op
    case OpBook(b) => OnBook(d, b)
    case OpCreatePo(so, lines) => CreatePo(d, so, lines)
    case OpSavePo(p, lines) => SavePo(d, p, lines)
    case OpConfirmPo(p) => ConfirmPo(d, p)
    case OpCancelPo(p) => CancelPo(d, p)
    case OpCreateInbound(p, lines) => CreateInbound(d, p, lines)
    case OpReceive(i, stock) => Receive(d, i, stock)
    case OpUnreceive(i, stock) => Unreceive(d, i, stock)
    case OpCreateReturn(i, entries, outbound) => CreateReturn(d, i, entries, outbound)
    case OpCreateCancellation(i, outbound) => CreateCancellation(d, i, outbound)
    case OpApprove(r) => Judge(d, r, Approved)
    case OpReject(r) => Judge(d, r, Rejected)
    case OpConfirmReturn(r, outbound, stock) => ConfirmReturn(d, r, outbound, stock)
    case OpConfirmCancellation(r, outbound) => ConfirmCancellation(d, r, outbound)
    case OpDispose(i, handling, outbound, stock) => Dispose(d, i, handling, outbound, stock)
  }

  ghost function Step(d: Docs, op: Op): Docs {
    if !Acceptable(op) then d
    else match Apply(d, op) case Ok(n) => n case Err(_) => d
  }

  ghost function Run(d: Docs, ops: seq<Op>): Docs
    decreases |ops|
  {
    if ops == [] then d else Run(Step(d, ops[0]), ops[1..])
  }

  // ---------- The invariant ----------

  ghost predicate PoOk(orders: seq<Quotations.Order>, p: Po) {
    && p.so < |orders| && Known(p.lines, orders[p.so].lines.Keys)
    && (forall k :: k in p.lines ==> p.lines[k].qty > 0)
    && (Ordering(p) ==> orders[p.so].status == Quotations.Confirmed)
  }

  ghost predicate SoQuota(orders: seq<Quotations.Order>, pos: seq<Po>, so: nat)
    requires so < |orders|
  {
    forall k :: k in orders[so].lines ==> Ordered(pos, so, k) <= orders[so].lines[k].qty
  }

  ghost predicate InboundOk(pos: seq<Po>, i: Inbound) {
    && i.po < |pos| && Known(i.lines, pos[i.po].lines.Keys)
    && (forall k :: k in i.lines ==> i.lines[k] > 0)
    && pos[i.po].status != PoDraft
    && (Arriving(i) ==> pos[i.po].status == PoConfirmed)
    && i.payable == Amount(i.lines, pos[i.po].lines)
  }

  ghost predicate PoQuota(pos: seq<Po>, inbounds: seq<Inbound>, p: nat)
    requires p < |pos|
  {
    forall k :: k in pos[p].lines ==> Inbounded(inbounds, p, k) <= pos[p].lines[k].qty
  }

  ghost predicate PurchaseInv(orders: seq<Quotations.Order>, pos: seq<Po>) {
    && (forall p :: 0 <= p < |pos| ==> PoOk(orders, pos[p]))
    && (forall so :: 0 <= so < |orders| ==> SoQuota(orders, pos, so))
  }

  ghost predicate InboundInv(pos: seq<Po>, inbounds: seq<Inbound>) {
    && (forall i :: 0 <= i < |inbounds| ==> InboundOk(pos, inbounds[i]))
    && (forall p :: 0 <= p < |pos| ==> PoQuota(pos, inbounds, p))
  }

  ghost predicate ChainInv(d: Docs) {
    Quotations.Inv(d.book) && PurchaseInv(d.book.orders, d.pos) && InboundInv(d.pos, d.inbounds)
  }

  // ---------- Sales order steps ----------

  /** Orders keep their lines; only a cancellation moves a status. */
  lemma OrdersLater(b: Quotations.Book, op: Quotations.Op)
    requires Quotations.Apply(b, op).Ok?
    ensures
      var n := Quotations.Apply(b, op).value;
      && |b.orders| <= |n.orders|
      && forall s :: 0 <= s < |b.orders| ==>
           && n.orders[s].lines == b.orders[s].lines
           && (n.orders[s].status == b.orders[s].status || (op.OpCancel? && op.s == s && !op.activePurchase))
  {}

  lemma OnBookKeepsChain(d: Docs, op: Quotations.Op)
    requires ChainInv(d) && OnBook(d, op).Ok?
    ensures ChainInv(OnBook(d, op).value)
  {
    var guarded := if op.OpCancel? then op.(activePurchase := HasPurchase(d, op.s)) else op;
    var n := OnBook(d, op).value;
    OrdersLater(d.book, guarded);
    Quotations.StepKeepsInv(d.book, guarded);
    forall p | 0 <= p < |n.pos| ensures PoOk(n.book.orders, n.pos[p]) {
      assert PoOk(d.book.orders, d.pos[p]);
    }
    forall so | 0 <= so < |n.book.orders| ensures SoQuota(n.book.orders, n.pos, so) {
      if so < |d.book.orders| {
        assert SoQuota(d.book.orders, d.pos, so);
      } else {
        forall k | k in n.book.orders[so].lines ensures Ordered(n.pos, so, k) == 0 {
          forall p | 0 <= p < |n.pos| ensures n.pos[p].so != so { assert PoOk(d.book.orders, d.pos[p]); }
          SumZero(n.pos, OrderedOn(so, k));
        }
      }
    }
  }

  // ---------- Purchase order steps ----------

  /** Replacing one purchase order moves the sums of its own sales order lines only. */
  lemma OrderedAfter(pos: seq<Po>, p: nat, now: Po, so: nat, k: nat)
    requires p < |pos|
    ensures Ordered(pos[p := now], so, k) == Ordered(pos, so, k) - OrderedOn(so, k)(pos[p]) + OrderedOn(so, k)(now)
  {
    SumUpdate(pos, p, now, OrderedOn(so, k));
  }

  lemma CreatePoKeepsChain(d: Docs, so: nat, lines: map<nat, PoLine>)
    requires ChainInv(d) && CreatePo(d, so, lines).Ok? && forall k :: k in lines ==> lines[k].qty > 0
    ensures ChainInv(CreatePo(d, so, lines).value)
  {
    var n := CreatePo(d, so, lines).value;
    var p := |d.pos|;
    forall s | 0 <= s < |n.book.orders| ensures SoQuota(n.book.orders, n.pos, s) {
      assert SoQuota(d.book.orders, d.pos, s);
      forall k | k in n.book.orders[s].lines ensures Ordered(n.pos, s, k) <= n.book.orders[s].lines[k].qty {
        SumAppend(d.pos, n.pos[p], OrderedOn(s, k));
      }
    }
    forall x | 0 <= x < |n.pos| ensures PoOk(n.book.orders, n.pos[x]) {
      if x < p { assert PoOk(d.book.orders, d.pos[x]); }
    }
    forall i | 0 <= i < |n.inbounds| ensures InboundOk(n.pos, n.inbounds[i]) {
      assert InboundOk(d.pos, d.inbounds[i]);
    }
    forall x | 0 <= x < |n.pos| ensures PoQuota(n.pos, n.inbounds, x) {
      if x < p {
        assert PoQuota(d.pos, d.inbounds, x);
      } else {
        forall k | k in n.pos[p].lines ensures Inbounded(n.inbounds, p, k) == 0 {
          forall i | 0 <= i < |n.inbounds| ensures n.inbounds[i].po != p { assert InboundOk(d.pos, d.inbounds[i]); }
          SumZero(n.inbounds, InboundedOn(p, k));
        }
      }
    }
  }

  lemma SavePoKeepsChain(d: Docs, p: nat, lines: map<nat, PoLine>)
    requires ChainInv(d) && SavePo(d, p, lines).Ok? && forall k :: k in lines ==> lines[k].qty > 0
    ensures ChainInv(SavePo(d, p, lines).value)
  {
    var n := SavePo(d, p, lines).value;
    forall s | 0 <= s < |n.book.orders| ensures SoQuota(n.book.orders, n.pos, s) {
      assert SoQuota(d.book.orders, d.pos, s);
      forall k | k in n.book.orders[s].lines ensures Ordered(n.pos, s, k) <= n.book.orders[s].lines[k].qty {
        OrderedAfter(d.pos, p, n.pos[p], s, k);
        OrderedAfter(d.pos, p, Without(d.pos, p)[p], s, k);
      }
    }
    forall x | 0 <= x < |n.pos| ensures PoOk(n.book.orders, n.pos[x]) { assert PoOk(d.book.orders, d.pos[x]); }
    forall i | 0 <= i < |n.inbounds| ensures InboundOk(n.pos, n.inbounds[i]) && n.inbounds[i].po != p {
      assert InboundOk(d.pos, d.inbounds[i]);
    }
    forall x | 0 <= x < |n.pos| ensures PoQuota(n.pos, n.inbounds, x) {
      assert PoQuota(d.pos, d.inbounds, x);
      if x == p {
        forall k | k in n.pos[p].lines ensures Inbounded(n.inbounds, p, k) == 0 {
          SumZero(n.inbounds, InboundedOn(p, k));
        }
      }
    }
  }

  /** Confirming or cancelling a purchase order. */
  lemma SetPoKeepsChain(d: Docs, p: nat, status: PoStatus)
    requires ChainInv(d) && p < |d.pos| && d.pos[p].status != PoCancelled && status != PoDraft
    requires status == PoCancelled ==> !HasActiveInboundOrder(d, p)
    ensures ChainInv(SetPo(d, p, status))
  {
    var n := SetPo(d, p, status);
    forall s | 0 <= s < |n.book.orders| ensures SoQuota(n.book.orders, n.pos, s) {
      assert SoQuota(d.book.orders, d.pos, s);
      forall k | k in n.book.orders[s].lines ensures Ordered(n.pos, s, k) <= n.book.orders[s].lines[k].qty {
        OrderedAfter(d.pos, p, n.pos[p], s, k);
      }
    }
    forall x | 0 <= x < |n.pos| ensures PoOk(n.book.orders, n.pos[x]) { assert PoOk(d.book.orders, d.pos[x]); }
    forall i | 0 <= i < |n.inbounds| ensures InboundOk(n.pos, n.inbounds[i]) { assert InboundOk(d.pos, d.inbounds[i]); }
    forall x | 0 <= x < |n.pos| ensures PoQuota(n.pos, n.inbounds, x) { assert PoQuota(d.pos, d.inbounds, x); }
  }

  // ---------- Inbound steps ----------

  lemma CreateInboundKeepsChain(d: Docs, p: nat, lines: Lines)
    requires ChainInv(d) && CreateInbound(d, p, lines).Ok? && forall k :: k in lines ==> lines[k] > 0
    ensures ChainInv(CreateInbound(d, p, lines).value)
  {
    var n := CreateInbound(d, p, lines).value;
    forall i | 0 <= i < |n.inbounds| ensures InboundOk(n.pos, n.inbounds[i]) {
      if i < |d.inbounds| { assert InboundOk(d.pos, d.inbounds[i]); }
    }
    forall x | 0 <= x < |n.pos| ensures PoQuota(n.pos, n.inbounds, x) {
      assert PoQuota(d.pos, d.inbounds, x);
      forall k | k in n.pos[x].lines ensures Inbounded(n.inbounds, x, k) <= n.pos[x].lines[k].qty {
        SumAppend(d.inbounds, n.inbounds[|d.inbounds|], InboundedOn(x, k));
      }
    }
  }

  /** The inbound state machine: what is in transit or received may be cancelled, closed, or go back and forth. */
  lemma SetInboundKeepsChain(d: Docs, i: nat, status: InStatus)
    requires ChainInv(d) && i < |d.inbounds| && Arriving(d.inbounds[i])
    ensures ChainInv(SetInbound(d, i, status))
  {
    var n := SetInbound(d, i, status);
    forall x | 0 <= x < |n.inbounds| ensures InboundOk(n.pos, n.inbounds[x]) { assert InboundOk(d.pos, d.inbounds[x]); }
    forall x | 0 <= x < |n.pos| ensures PoQuota(n.pos, n.inbounds, x) {
      assert PoQuota(d.pos, d.inbounds, x);
      forall k | k in n.pos[x].lines ensures Inbounded(n.inbounds, x, k) <= n.pos[x].lines[k].qty {
        SumUpdate(d.inbounds, i, n.inbounds[i], InboundedOn(x, k));
      }
    }
  }

  predicate OnPurchases(op: Op) {
    op.OpBook? || op.OpCreatePo? || op.OpSavePo? || op.OpConfirmPo? || op.OpCancelPo?
  }

  predicate OnInbounds(op: Op) {
    op.OpCreateInbound? || op.OpReceive? || op.OpUnreceive?
  }

  lemma PurchaseStepKeepsChain(d: Docs, op: Op)
    requires ChainInv(d) && OnPurchases(op) && Acceptable(op) && Apply(d, op).Ok?
    ensures ChainInv(Apply(d, op).value)
  {
    match op
    case OpBook(b) => OnBookKeepsChain(d, b);
    case OpCreatePo(so, lines) => CreatePoKeepsChain(d, so, lines);
    case OpSavePo(p, lines) => SavePoKeepsChain(d, p, lines);
    case OpConfirmPo(p) => SetPoKeepsChain(d, p, PoConfirmed);
    case OpCancelPo(p) => SetPoKeepsChain(d, p, PoCancelled);
  }

  lemma InboundStepKeepsChain(d: Docs, op: Op)
    requires ChainInv(d) && OnInbounds(op) && Acceptable(op) && Apply(d, op).Ok?
    ensures ChainInv(Apply(d, op).value)
  {
    match op
    case OpCreateInbound(p, lines) => CreateInboundKeepsChain(d, p, lines);
    case OpReceive(i, _) => SetInboundKeepsChain(d, i, Received);
    case OpUnreceive(i, _) => SetInboundKeepsChain(d, i, InTransit);
  }

  lemma DisposeKeepsChain(d: Docs, op: Op)
    requires ChainInv(d) && op.OpDispose? && Apply(d, op).Ok?
    ensures ChainInv(Apply(d, op).value)
  {
    SetInboundKeepsChain(d, op.i, Closed);
  }

  lemma ReturnStepKeepsChain(d: Docs, op: Op)
    requires ChainInv(d) && !OnPurchases(op) && !OnInbounds(op) && !op.OpDispose? && Apply(d, op).Ok?
    ensures ChainInv(Apply(d, op).value)
  {
    if op.OpConfirmCancellation? { SetInboundKeepsChain(d, d.reversals[op.r].inbound, InCancelled); }
  }

  lemma StepKeepsChain(d: Docs, op: Op)
    requires ChainInv(d)
    ensures ChainInv(Step(d, op))
  {
    if Acceptable(op) && Apply(d, op).Ok? {
      if OnPurchases(op) { PurchaseStepKeepsChain(d, op); }
      else if OnInbounds(op) { InboundStepKeepsChain(d, op); }
      else if op.OpDispose? { DisposeKeepsChain(d, op); }
      else { ReturnStepKeepsChain(d, op); }
    }
  }

  lemma {:induction false} RunKeepsChain(d: Docs, ops: seq<Op>)
    requires ChainInv(d)
    ensures ChainInv(Run(d, ops))
    decreases |ops|
  {
    if ops != [] {
      StepKeepsChain(d, ops[0]);
      RunKeepsChain(Step(d, ops[0]), ops[1..]);
    }
  }
}
