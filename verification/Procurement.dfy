/**
 The document chain and the ledger run together: an inbound order opens its payable, and a completed
 return or in-transit cancellation asks for its supplier credit, in one transaction each.
 */
module Procurement {
  import opened Base
  import opened LedgerRows
  import opened ApCredit
  import opened CancellationCredit
  import Chain
  import LedgerGuards
  import LedgerRuns
  import Ordering
  import Reversals
  import Sums

  /** `payables` holds the account of each inbound order. */
  datatype Firm = Firm(docs: Chain.Docs, db: Db, payables: seq<nat>)

  const FOUNDED := Firm(Chain.EMPTY, LedgerRows.EMPTY, [])

  /** A step of the documents alone, of the ledger alone, or one of the two that write both. */
  datatype Op =
    | OnDocuments(doc: Chain.Op)
    | OnLedger(entry: LedgerRuns.Op)
    | CreateInbound(p: nat, lines: Chain.Lines, supplier: nat, currency: string, due: Option<int>, now: int)
    | Complete(doc: Chain.Op)

  predicate Completes(o: Chain.Op) { o.OpConfirmReturn? || o.OpConfirmCancellation? }

  predicate ReturnedOrder(reversals: seq<Chain.Return>, r: nat) {
    r < |reversals| && reversals[r].status == Chain.Returned
  }

  /** Payables and memos are opened by the documents; posting and resubmitting look at the return again. */
  predicate LedgerAllows(f: Firm, o: LedgerRuns.Op) {
    && !o.OpInbound? && !o.OpCreateMemo?
    && (o.OpPostMemo? && o.m < |f.db.memos| ==> f.db.memos[o.m].order < |f.docs.reversals|)
    && (o.OpResubmitMemo? && o.m < |f.db.memos| ==> ReturnedOrder(f.docs.reversals, f.db.memos[o.m].order))
  }

  ghost function Receive(f: Firm, op: Op): Firm
    requires op.CreateInbound?
  {
    var n := Chain.Step(f.docs, Chain.OpCreateInbound(op.p, op.lines));
    if |n.inbounds| <= |f.docs.inbounds| then f
    else
      var amount := n.inbounds[|f.docs.inbounds|].payable;
      Firm(n, LedgerRuns.AddAccount(f.db, Payable, op.supplier, op.currency, amount, op.due, op.now),
           f.payables + [|f.db.accounts|])
  }

  ghost function Completed(f: Firm, o: Chain.Op): Firm
    requires Completes(o)
  {
    match Chain.Apply(f.docs, o)
    case Err(_) => f
    case Ok(d) =>
      if o.r >= |d.reversals| || d.reversals[o.r].inbound >= |f.payables| then f
      else
        match CreateMemo(f.db, o.r, f.payables[d.reversals[o.r].inbound], d.reversals[o.r].total)
        case Err(_) => f
        case Ok(db) => f.(docs := d, db := db)
  }

  ghost function Step(f: Firm, op: Op): Firm
    requires Wired(f.db)
  {
    match op
    case OnDocuments(o) => if o.OpCreateInbound? || Completes(o) then f else f.(docs := Chain.Step(f.docs, o))
    case OnLedger(o) => if LedgerAllows(f, o) then f.(db := LedgerRuns.Step(f.db, o)) else f
    case CreateInbound(_, _, _, _, _, _) => Receive(f, op)
    case Complete(o) => if Completes(o) then Completed(f, o) else f
  }

  // ---------- What joins the two ----------

  ghost predicate PayableOk(inbounds: seq<Chain.Inbound>, accounts: seq<Account>, i: nat, a: nat) {
    && i < |inbounds| && a < |accounts|
    && accounts[a].side == Payable && !accounts[a].voided && accounts[a].original == inbounds[i].payable
  }

  /** Each inbound order has a payable of its own, for its amount. */
  ghost predicate PayablesOk(inbounds: seq<Chain.Inbound>, accounts: seq<Account>, payables: seq<nat>) {
    && |payables| == |inbounds| && Ordering.Distinct(payables)
    && forall i :: 0 <= i < |payables| ==> PayableOk(inbounds, accounts, i, payables[i])
  }

  /** A memo credits the total of a completed return to the payable of its inbound order. */
  ghost predicate Backed(reversals: seq<Chain.Return>, payables: seq<nat>, memo: ApMemo) {
    && ReturnedOrder(reversals, memo.order)
    && var r := reversals[memo.order];
    r.inbound < |payables| && memo.payable == payables[r.inbound] && memo.amount == r.total
  }

  ghost predicate AllBacked(reversals: seq<Chain.Return>, payables: seq<nat>, memos: seq<ApMemo>) {
    forall m :: 0 <= m < |memos| ==> Backed(reversals, payables, memos[m])
  }

  ghost predicate FirmInv(f: Firm) {
    && Chain.ChainInv(f.docs) && Reversals.ReverseInv(f.docs) && Inv(f.db)
    && PayablesOk(f.docs.inbounds, f.db.accounts, f.payables)
    && AllBacked(f.docs.reversals, f.payables, f.db.memos)
  }

  // ---------- Every step keeps it ----------

  ghost predicate SamePayables(inbounds: seq<Chain.Inbound>, after: seq<Chain.Inbound>) {
    |inbounds| <= |after| && forall i :: 0 <= i < |inbounds| ==> after[i].payable == inbounds[i].payable
  }

  ghost predicate ReturnsLater(reversals: seq<Chain.Return>, after: seq<Chain.Return>) {
    && |reversals| <= |after|
    && forall r :: 0 <= r < |reversals| ==>
         && after[r] == reversals[r].(status := after[r].status)
         && (reversals[r].status == Chain.Returned ==> after[r].status == Chain.Returned)
  }

  ghost predicate DocsLater(d: Chain.Docs, n: Chain.Docs) {
    SamePayables(d.inbounds, n.inbounds) && ReturnsLater(d.reversals, n.reversals)
  }

  lemma PurchaseStepMovesForward(d: Chain.Docs, o: Chain.Op)
    requires Chain.OnPurchases(o) && Chain.Apply(d, o).Ok?
    ensures var n := Chain.Apply(d, o).value; n.inbounds == d.inbounds && n.reversals == d.reversals
  {}

  lemma InboundStepMovesForward(d: Chain.Docs, o: Chain.Op)
    requires Chain.OnInbounds(o) && Chain.Apply(d, o).Ok?
    ensures DocsLater(d, Chain.Apply(d, o).value)
    ensures !o.OpCreateInbound? ==> |Chain.Apply(d, o).value.inbounds| == |d.inbounds|
  {}

  lemma ReturnStepMovesForward(d: Chain.Docs, o: Chain.Op)
    requires !Chain.OnPurchases(o) && !Chain.OnInbounds(o) && Chain.Apply(d, o).Ok?
    ensures DocsLater(d, Chain.Apply(d, o).value) && |Chain.Apply(d, o).value.inbounds| == |d.inbounds|
  {}

  lemma DocumentsMoveForward(d: Chain.Docs, o: Chain.Op)
    ensures DocsLater(d, Chain.Step(d, o))
    ensures !o.OpCreateInbound? ==> |Chain.Step(d, o).inbounds| == |d.inbounds|
  {
    if Chain.Acceptable(o) && Chain.Apply(d, o).Ok? {
      if Chain.OnPurchases(o) { PurchaseStepMovesForward(d, o); }
      else if Chain.OnInbounds(o) { InboundStepMovesForward(d, o); }
      else { ReturnStepMovesForward(d, o); }
    }
  }

  lemma PayablesStayOk(inbounds: seq<Chain.Inbound>, after: seq<Chain.Inbound>,
                       accounts: seq<Account>, later: seq<Account>, payables: seq<nat>)
    requires PayablesOk(inbounds, accounts, payables) && SamePayables(inbounds, after) && |after| == |inbounds|
    requires LedgerGuards.AccountsLater(accounts, later)
    ensures PayablesOk(after, later, payables)
  {
    forall i | 0 <= i < |payables| ensures PayableOk(after, later, i, payables[i]) {
      assert PayableOk(inbounds, accounts, i, payables[i]);
      assert LedgerGuards.AccountLater(accounts[payables[i]], later[payables[i]]);
    }
  }

  lemma PayableIsAdded(inbounds: seq<Chain.Inbound>, inbound: Chain.Inbound,
                       accounts: seq<Account>, account: Account, payables: seq<nat>)
    requires PayablesOk(inbounds, accounts, payables)
    requires account.side == Payable && !account.voided && account.original == inbound.payable
    ensures PayablesOk(inbounds + [inbound], accounts + [account], payables + [|accounts|])
  {
    forall i | 0 <= i < |payables| ensures payables[i] < |accounts| {
      assert PayableOk(inbounds, accounts, i, payables[i]);
    }
    var more := payables + [|accounts|];
    forall i | 0 <= i < |more| ensures PayableOk(inbounds + [inbound], accounts + [account], i, more[i]) {
      if i < |payables| { assert PayableOk(inbounds, accounts, i, payables[i]); }
    }
  }

  lemma MemosStayBacked(reversals: seq<Chain.Return>, after: seq<Chain.Return>, payables: seq<nat>, more: seq<nat>,
                        memos: seq<ApMemo>)
    requires AllBacked(reversals, payables, memos) && ReturnsLater(reversals, after) && payables <= more
    ensures AllBacked(after, more, memos)
  {
    forall m | 0 <= m < |memos| ensures Backed(after, more, memos[m]) { assert Backed(reversals, payables, memos[m]); }
  }

  lemma SameAccounts(accounts: seq<Account>)
    ensures LedgerGuards.AccountsLater(accounts, accounts)
  {}

  lemma DocumentStepKeepsInv(f: Firm, o: Chain.Op)
    requires FirmInv(f) && !o.OpCreateInbound?
    ensures FirmInv(f.(docs := Chain.Step(f.docs, o)))
  {
    var d := Chain.Step(f.docs, o);
    Chain.StepKeepsChain(f.docs, o);
    Reversals.StepKeepsReverse(f.docs, o);
    DocumentsMoveForward(f.docs, o);
    SameAccounts(f.db.accounts);
    PayablesStayOk(f.docs.inbounds, d.inbounds, f.db.accounts, f.db.accounts, f.payables);
    MemosStayBacked(f.docs.reversals, d.reversals, f.payables, f.payables, f.db.memos);
  }

  lemma MemosFromStayBacked(reversals: seq<Chain.Return>, payables: seq<nat>, memos: seq<ApMemo>, after: seq<ApMemo>)
    requires AllBacked(reversals, payables, memos) && LedgerGuards.MemosFrom(memos, after)
    ensures AllBacked(reversals, payables, after)
  {
    forall m | 0 <= m < |after| ensures Backed(reversals, payables, after[m]) {
      assert LedgerGuards.KnownCredit(memos, after[m]);
      var b :| 0 <= b < |memos| && LedgerGuards.SameCredit(memos[b], after[m]);
      assert Backed(reversals, payables, memos[b]);
    }
  }

  lemma LedgerStepKeepsInv(f: Firm, o: LedgerRuns.Op)
    requires FirmInv(f) && Wired(f.db) && LedgerAllows(f, o)
    ensures FirmInv(f.(db := LedgerRuns.Step(f.db, o)))
  {
    var d := LedgerRuns.Step(f.db, o);
    LedgerRuns.StepKeepsInv(f.db, o);
    LedgerGuards.StepKeepsAccounts(f.db, o);
    LedgerGuards.StepMakesMemosFrom(f.db, o);
    PayablesStayOk(f.docs.inbounds, f.docs.inbounds, f.db.accounts, d.accounts, f.payables);
    MemosFromStayBacked(f.docs.reversals, f.payables, f.db.memos, d.memos);
  }

  lemma AmountIsNotNegative(lines: Chain.Lines, prices: map<nat, Chain.PoLine>)
    ensures Chain.Amount(lines, prices) >= 0
  {
    Sums.MapSumNotNegative(Chain.LineAmounts(lines, prices));
  }

  lemma InboundIsAppended(d: Chain.Docs, p: nat, lines: Chain.Lines)
    requires |Chain.Step(d, Chain.OpCreateInbound(p, lines)).inbounds| > |d.inbounds|
    ensures
      var n := Chain.Step(d, Chain.OpCreateInbound(p, lines));
      && |n.inbounds| == |d.inbounds| + 1 && n.inbounds == d.inbounds + [n.inbounds[|d.inbounds|]]
      && n.reversals == d.reversals && n.inbounds[|d.inbounds|].payable >= 0
  {
    AmountIsNotNegative(lines, d.pos[p].lines);
  }

  /** The inbound order and its payable, once both are there. */
  lemma ReceivedLinks(f: Firm, op: Op)
    requires FirmInv(f) && op.CreateInbound? && Receive(f, op) != f
    ensures var n := Receive(f, op);
            && PayablesOk(n.docs.inbounds, n.db.accounts, n.payables)
            && AllBacked(n.docs.reversals, n.payables, n.db.memos) && Inv(n.db)
  {
    var n := Receive(f, op);
    InboundIsAppended(f.docs, op.p, op.lines);
    var inbound := n.docs.inbounds[|f.docs.inbounds|];
    LedgerRuns.AddAccountKeepsInv(f.db, Payable, op.supplier, op.currency, inbound.payable, op.due, op.now);
    PayableIsAdded(f.docs.inbounds, inbound, f.db.accounts, n.db.accounts[|f.db.accounts|], f.payables);
    MemosStayBacked(f.docs.reversals, f.docs.reversals, f.payables, n.payables, f.db.memos);
  }

  lemma ReceiveKeepsInv(f: Firm, op: Op)
    requires FirmInv(f) && op.CreateInbound?
    ensures FirmInv(Receive(f, op))
  {
    if Receive(f, op) != f {
      Chain.StepKeepsChain(f.docs, Chain.OpCreateInbound(op.p, op.lines));
      Reversals.StepKeepsReverse(f.docs, Chain.OpCreateInbound(op.p, op.lines));
      ReceivedLinks(f, op);
    }
  }

  lemma CompletionWrites(d: Chain.Docs, o: Chain.Op)
    requires Completes(o) && Chain.Apply(d, o).Ok?
    ensures
      var n := Chain.Apply(d, o).value;
      && o.r < |d.reversals| == |n.reversals| && |n.inbounds| == |d.inbounds|
      && d.reversals[o.r].status == Chain.Approved
      && n.reversals[o.r] == d.reversals[o.r].(status := Chain.Returned) && n == Chain.Step(d, o)
  {}

  lemma MemoIsAdded(reversals: seq<Chain.Return>, payables: seq<nat>, memos: seq<ApMemo>, memo: ApMemo)
    requires AllBacked(reversals, payables, memos) && Backed(reversals, payables, memo)
    ensures AllBacked(reversals, payables, memos + [memo])
  {
    var more := memos + [memo];
    forall m | 0 <= m < |more| ensures Backed(reversals, payables, more[m]) {
      if m < |memos| { assert Backed(reversals, payables, memos[m]); }
    }
  }

  lemma MemoAskedFor(db: Db, order: nat, payable: nat, amount: int)
    requires CreateMemo(db, order, payable, amount).Ok?
    ensures CreateMemo(db, order, payable, amount).value
         == db.(memos := db.memos + if amount <= 0 then [] else [ApMemo(payable, order, amount, Pending)])
  {
    assert db.memos + [] == db.memos;
  }

  /** A completed return may ask for its credit. */
  lemma AskingKeepsInv(f: Firm, r: nat, db: Db)
    requires FirmInv(f) && ReturnedOrder(f.docs.reversals, r) && f.docs.reversals[r].inbound < |f.payables|
    requires CreateMemo(f.db, r, f.payables[f.docs.reversals[r].inbound], f.docs.reversals[r].total) == Ok(db)
    ensures FirmInv(f.(db := db))
  {
    var row := f.docs.reversals[r];
    var payable := f.payables[row.inbound];
    CreateMemoKeepsInv(f.db, r, payable, row.total);
    MemoAskedFor(f.db, r, payable, row.total);
    if row.total > 0 {
      MemoIsAdded(f.docs.reversals, f.payables, f.db.memos, ApMemo(payable, r, row.total, Pending));
    } else {
      assert db == f.db;
    }
  }

  lemma CompletedKeepsInv(f: Firm, o: Chain.Op)
    requires FirmInv(f) && Completes(o)
    ensures FirmInv(Completed(f, o))
  {
    if Completed(f, o) != f {
      CompletionWrites(f.docs, o);
      DocumentStepKeepsInv(f, o);
      AskingKeepsInv(f.(docs := Chain.Step(f.docs, o)), o.r, Completed(f, o).db);
    }
  }

  lemma StepKeepsInv(f: Firm, op: Op)
    requires FirmInv(f) && Wired(f.db)
    ensures FirmInv(Step(f, op))
  {
    match op
    case OnDocuments(o) => if !o.OpCreateInbound? { DocumentStepKeepsInv(f, o); }
    case OnLedger(o) => if LedgerAllows(f, o) { LedgerStepKeepsInv(f, o); }
    case CreateInbound(_, _, _, _, _, _) => ReceiveKeepsInv(f, op);
    case Complete(o) => if Completes(o) { CompletedKeepsInv(f, o); }
  }

  ghost function Run(f: Firm, ops: seq<Op>): (n: Firm)
    requires FirmInv(f)
    ensures FirmInv(n) && Wired(n.db)
    decreases |ops|
  {
    InvIsWired(f.db);
    if ops == [] then f
    else
      StepKeepsInv(f, ops[0]);
      Run(Step(f, ops[0]), ops[1..])
  }

  lemma FoundedIsInOrder()
    ensures FirmInv(FOUNDED)
  {}

  // ---------- What a whole cancellation is worth ----------

  /** The payable of a completed in-transit cancellation has no other credit, posted or asked for. */
  lemma OnlyCreditOfItsPayable(f: Firm, m: nat, other: nat)
    requires FirmInv(f) && m < |f.db.memos| && other < |f.db.memos| && other != m
    requires f.docs.reversals[f.db.memos[m].order].whole && OpenMemo(f.db.memos[m])
    requires f.db.memos[other].payable == f.db.memos[m].payable
    ensures !OpenMemo(f.db.memos[other])
  {
    var memo, x := f.db.memos[m], f.db.memos[other];
    assert Backed(f.docs.reversals, f.payables, memo) && Backed(f.docs.reversals, f.payables, x);
    var i, j := f.docs.reversals[memo.order].inbound, f.docs.reversals[x.order].inbound;
    assert i == j;
    if OpenMemo(x) {
      OpenMemosDiffer(f.db, m, other);
      Reversals.OnlyTheCancellation(f.docs, memo.order, x.order);
    }
  }

  lemma OpenMemosDiffer(db: Db, m: nat, other: nat)
    requires OneOpenMemo(db) && m < |db.memos| && other < |db.memos| && m != other
    requires OpenMemo(db.memos[m]) && OpenMemo(db.memos[other])
    ensures db.memos[m].order != db.memos[other].order
  {}

  lemma {:induction false} NoLiveCredits(memos: seq<ApMemo>, payable: nat)
    requires forall m :: 0 <= m < |memos| && memos[m].payable == payable ==> memos[m].status != Live
    ensures Credits(memos, payable) == 0
  {
    if memos != [] { NoLiveCredits(memos[..|memos| - 1], payable); }
  }

  /** So a pending credit of such a cancellation is one for the whole of a payable without credits. */
  lemma CancellationsAskForTheWhole(f: Firm, m: nat)
    requires FirmInv(f) && Wired(f.db) && m < |f.db.memos| && f.db.memos[m].status == Pending
    requires f.docs.reversals[f.db.memos[m].order].whole
    ensures WholeMemo(f.db, m)
  {
    var memo := f.db.memos[m];
    assert Backed(f.docs.reversals, f.payables, memo);
    var i := f.docs.reversals[memo.order].inbound;
    assert PayableOk(f.docs.inbounds, f.db.accounts, i, f.payables[i]);
    Reversals.CancellationIsWhole(f.docs, memo.order);
    forall x | 0 <= x < |f.db.memos| && f.db.memos[x].payable == memo.payable ensures f.db.memos[x].status != Live {
      if x != m { OnlyCreditOfItsPayable(f, m, x); }
    }
    NoLiveCredits(f.db.memos, memo.payable);
  }

  /** Nothing is left outstanding or matched on the payable, and every payment has back what it had paid. */
  ghost predicate Cleared(db: Db, d: Db, payable: nat) {
    && payable < |db.accounts| && |d.accounts| == |db.accounts|
    && AllPaidBack(db, d, payable, PaidRows(db.allocs, payable))
    && d.accounts[payable] == db.accounts[payable].(matched := 0, credited := db.accounts[payable].original)
  }

  lemma CancellationCreditPosts(f: Firm, m: nat, now: int)
    requires FirmInv(f) && Wired(f.db) && m < |f.db.memos| && f.db.memos[m].status == Pending
    requires f.docs.reversals[f.db.memos[m].order].whole
    ensures PostMemo(f.db, m, now).Ok? && Cleared(f.db, PostMemo(f.db, m, now).value, f.db.memos[m].payable)
  {
    CancellationsAskForTheWhole(f, m);
    var ids := WholeCreditAlwaysPosts(f.db, m, now);
  }

  lemma CreditIsTheBill(f: Firm, m: nat)
    requires FirmInv(f) && m < |f.db.memos|
    ensures
      var memo := f.db.memos[m];
      && memo.order < |f.docs.reversals| && f.docs.reversals[memo.order].status == Chain.Returned
      && f.docs.reversals[memo.order].inbound < |f.docs.inbounds|
      && memo.payable == f.payables[f.docs.reversals[memo.order].inbound]
      && (f.docs.reversals[memo.order].whole ==>
            memo.amount == f.docs.inbounds[f.docs.reversals[memo.order].inbound].payable)
  {
    assert Backed(f.docs.reversals, f.payables, f.db.memos[m]);
    if f.docs.reversals[f.db.memos[m].order].whole { Reversals.CancellationIsWhole(f.docs, f.db.memos[m].order); }
  }

  lemma PostingIsAStep(f: Firm, m: nat, now: int)
    requires Wired(f.db) && m < |f.db.memos| && f.db.memos[m].order < |f.docs.reversals| && PostMemo(f.db, m, now).Ok?
    ensures Step(f, OnLedger(LedgerRuns.OpPostMemo(m, now))) == f.(db := PostMemo(f.db, m, now).value)
  {}

  /** The credit is for exactly what the inbound order was billed, and posting it, a step the service takes,
      clears the payable. */
  ghost predicate PostsInFull(f: Firm, m: nat, now: int)
    requires Wired(f.db) && m < |f.db.memos|
  {
    var memo := f.db.memos[m];
    && memo.order < |f.docs.reversals| && f.docs.reversals[memo.order].inbound < |f.docs.inbounds|
    && memo.amount == f.docs.inbounds[f.docs.reversals[memo.order].inbound].payable
    && PostMemo(f.db, m, now).Ok?
    && Step(f, OnLedger(LedgerRuns.OpPostMemo(m, now))) == f.(db := PostMemo(f.db, m, now).value)
    && Cleared(f.db, PostMemo(f.db, m, now).value, memo.payable)
  }

  lemma CancellationPostsInFull(f: Firm, m: nat, now: int)
    requires FirmInv(f) && Wired(f.db) && m < |f.db.memos| && f.db.memos[m].status == Pending
    requires f.db.memos[m].order < |f.docs.reversals| ==> f.docs.reversals[f.db.memos[m].order].whole
    ensures PostsInFull(f, m, now)
  {
    CreditIsTheBill(f, m);
    CancellationCreditPosts(f, m, now);
    PostingIsAStep(f, m, now);
  }

  predicate CreditsACancellation(f: Firm, m: nat) {
    && m < |f.db.memos| && f.db.memos[m].order < |f.docs.reversals|
    && f.docs.reversals[f.db.memos[m].order].whole
  }

  /**
   Whatever the documents and the ledger do together, a pending credit of an in-transit cancellation is
   for exactly what its inbound order was billed, and posting it succeeds. It leaves nothing outstanding
   and nothing matched on the payable, reverses every active payment allocation without a split, and
   gives every payment back all it had paid.
   */
  lemma CancellationCreditsAlwaysPost(start: Firm, ops: seq<Op>, m: nat, now: int)
    requires FirmInv(start)
    requires CreditsACancellation(Run(start, ops), m) && Run(start, ops).db.memos[m].status == Pending
    ensures PostsInFull(Run(start, ops), m, now)
  {
    CancellationPostsInFull(Run(start, ops), m, now);
  }

  // ---------- From the approval to the last cent ----------

  lemma NoCreditAskedYet(f: Firm, r: nat)
    requires FirmInv(f) && r < |f.docs.reversals| && f.docs.reversals[r].status != Chain.Returned
    ensures !HasOpenMemo(f.db, r)
  {
    forall m | 0 <= m < |f.db.memos| ensures f.db.memos[m].order != r {
      assert Backed(f.docs.reversals, f.payables, f.db.memos[m]);
    }
  }

  lemma PayableOfReturnIsActive(f: Firm, r: nat)
    requires FirmInv(f) && r < |f.docs.reversals|
    ensures f.docs.reversals[r].inbound < |f.payables| && ActivePayable(f.db, f.payables[f.docs.reversals[r].inbound])
  {
    var row := f.docs.reversals[r];
    assert Reversals.ReturnOk(f.docs.pos, f.docs.inbounds, row);
    assert PayableOk(f.docs.inbounds, f.db.accounts, row.inbound, f.payables[row.inbound]);
  }

  lemma AskedFor(db: Db, r: nat, payable: nat, total: int)
    requires ActivePayable(db, payable) && !HasOpenMemo(db, r)
    ensures CreateMemo(db, r, payable, total)
         == Ok(db.(memos := db.memos + if total <= 0 then [] else [ApMemo(payable, r, total, Pending)]))
  {
    assert db.memos + [] == db.memos;
  }

  /** Nor in the way of an inbound order: where the documents take it, its payable is opened for what it is billed. */
  lemma InboundsAreNeverRefused(f: Firm, op: Op)
    requires FirmInv(f) && op.CreateInbound? && Chain.Acceptable(Chain.OpCreateInbound(op.p, op.lines))
    requires Chain.CreateInbound(f.docs, op.p, op.lines).Ok?
    ensures Wired(f.db)
    ensures
      var d := Chain.CreateInbound(f.docs, op.p, op.lines).value;
      && |d.inbounds| == |f.docs.inbounds| + 1
      && Step(f, op) == Receive(f, op) && Receive(f, op).docs == d
      && Receive(f, op).payables == f.payables + [|f.db.accounts|]
      && Receive(f, op).db.accounts
         == f.db.accounts + [Account(Payable, op.supplier, op.currency, d.inbounds[|f.docs.inbounds|].payable, 0, 0,
                                     op.due, op.now, false)]
  {
    InvIsWired(f.db);
  }

  /** The ledger never stands in the way of a completion: where the documents allow it, the credit is asked for. */
  lemma CompletionsAreNeverRefused(f: Firm, o: Chain.Op)
    requires FirmInv(f) && Completes(o) && Chain.Apply(f.docs, o).Ok?
    ensures o.r < |f.docs.reversals| && f.docs.reversals[o.r].inbound < |f.payables|
    ensures
      var row := f.docs.reversals[o.r];
      var memo := ApMemo(f.payables[row.inbound], o.r, row.total, Pending);
      Completed(f, o) == Firm(Chain.Apply(f.docs, o).value,
                              f.db.(memos := f.db.memos + if row.total <= 0 then [] else [memo]), f.payables)
  {
    CompletionWrites(f.docs, o);
    NoCreditAskedYet(f, o.r);
    PayableOfReturnIsActive(f, o.r);
    AskedFor(f.db, o.r, f.payables[f.docs.reversals[o.r].inbound], f.docs.reversals[o.r].total);
  }

  /** The firm after the confirmation of cancellation r. */
  ghost function Confirmed(f: Firm, r: nat): Firm { Completed(f, Chain.OpConfirmCancellation(r, false)) }

  predicate ApprovedCancellation(d: Chain.Docs, r: nat) {
    r < |d.reversals| && d.reversals[r].whole && d.reversals[r].status == Chain.Approved && d.reversals[r].total > 0
  }

  lemma ConfirmationCancels(d: Chain.Docs, r: nat)
    requires Chain.ConfirmCancellation(d, r, false).Ok?
    ensures
      var n := Chain.ConfirmCancellation(d, r, false).value;
      && r < |d.reversals| == |n.reversals| && n.reversals[r].whole && |n.inbounds| == |d.inbounds|
      && d.reversals[r].inbound < |n.inbounds| && n.inbounds[d.reversals[r].inbound].status == Chain.InCancelled
  {}

  lemma ConfirmationIsAnOp(d: Chain.Docs, r: nat)
    ensures Chain.Apply(d, Chain.OpConfirmCancellation(r, false)) == Chain.ConfirmCancellation(d, r, false)
  {}

  lemma ConfirmationAsks(f: Firm, r: nat)
    requires FirmInv(f) && ApprovedCancellation(f.docs, r)
    ensures
      var c := Confirmed(f, r);
      && FirmInv(c) && Wired(c.db) && |c.db.memos| == |f.db.memos| + 1
      && c.db.memos[|f.db.memos|].order == r && c.db.memos[|f.db.memos|].status == Pending
      && r < |c.docs.reversals| && c.docs.reversals[r].whole
      && f.docs.reversals[r].inbound < |c.docs.inbounds|
      && c.docs.inbounds[f.docs.reversals[r].inbound].status == Chain.InCancelled
  {
    var o := Chain.OpConfirmCancellation(r, false);
    Reversals.CancellationIsWhole(f.docs, r);
    ConfirmationCancels(f.docs, r);
    ConfirmationIsAnOp(f.docs, r);
    CompletionsAreNeverRefused(f, o);
    CompletedKeepsInv(f, o);
    InvIsWired(Confirmed(f, r).db);
  }

  /** An approved in-transit cancellation of billed goods, confirmed and posted, settles its payable: the inbound
      order is cancelled, nothing is owed, and no payment is tied up. */
  lemma ApprovedCancellationSettles(f: Firm, r: nat, now: int)
    requires FirmInv(f) && ApprovedCancellation(f.docs, r)
    ensures
      var c := Confirmed(f, r);
      && Wired(c.db) && |c.db.memos| == |f.db.memos| + 1 && c.db.memos[|f.db.memos|].order == r
      && PostsInFull(c, |f.db.memos|, now)
      && f.docs.reversals[r].inbound < |c.docs.inbounds|
      && c.docs.inbounds[f.docs.reversals[r].inbound].status == Chain.InCancelled
  {
    ConfirmationAsks(f, r);
    CancellationPostsInFull(Confirmed(f, r), |f.db.memos|, now);
  }
}
