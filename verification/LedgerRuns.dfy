/**
 Runs of the settlement ledger: every operation of the services as one step, and what
 holds in every state that any sequence of steps reaches from the empty ledger.
 A step that raises leaves the ledger as it was: its transaction is rolled back.
 */
module LedgerRuns {
  import opened Base
  import opened LedgerRows
  import opened Engine
  import opened ApCredit
  import opened CustomerCredit

  datatype Op =
    | OpRegister(kind: Kind, party: Option<nat>, currency: string, amount: int, now: int)
    | OpClaim(s: nat, customer: nat, now: int)
    | OpVoid(kind: Kind, s: nat)
    | OpManual(kind: Kind, s: nat, a: nat, now: int)
    | OpReverse(kind: Kind, i: nat, reason: string)
    | OpInbound(supplier: nat, currency: string, amount: int, due: Option<int>, now: int)
    | OpOutbound(customer: nat, currency: string, amount: int, due: Option<int>, now: int)
    | OpCreateMemo(order: nat, payable: nat, amount: int)
    | OpPostMemo(m: nat, now: int)
    | OpRejectMemo(m: nat)
    | OpResubmitMemo(m: nat)
    | OpCreateCredit(origin: nat, customer: nat, amount: int, actor: nat, ready: bool, now: int)
    | OpPostCredit(s: nat, actor: nat, ready: bool)
    | OpRejectCredit(s: nat)
    | OpResubmitCredit(s: nat, amount: int, actor: nat, ready: bool, now: int)
    | OpVoidCredit(s: nat, reason: string)
    | OpAllocateCredit(m: nat, r: nat, wanted: Option<int>, key: Key, now: int)
    | OpReverseCredit(i: nat, reason: string, key: Key)

  function AddAccount(db: Db, side: Side, party: nat, currency: string, amount: int, due: Option<int>, now: int): Db {
    db.(accounts := db.accounts + [Account(side, party, currency, amount, 0, 0, due, now, false)])
  }

  /** Confirming an outbound order makes the receivable and lets posted credits settle it. */
  function ConfirmOutbound(db: Db, customer: nat, currency: string, amount: int, due: Option<int>, now: int): (d: Db) {
    AutoCredit(AddAccount(db, Receivable, customer, currency, amount, due, now), |db.accounts|, now)
  }

  function Settle<E>(db: Db, r: Result<Db, E>): Db {
    match r case Ok(d) => d case Err(_) => db
  }

  function Settle2<E>(db: Db, r: Result<(Db, nat), E>): Db {
    match r case Ok(d) => d.0 case Err(_) => db
  }

  function Step(db: Db, op: Op): (d: Db)
    requires Wired(db)
  {
    match op
    case OpRegister(kind, party, currency, amount, now) => Settle(db, Register(db, kind, party, currency, amount, now))
    case OpClaim(s, customer, now) => Settle(db, Claim(db, s, customer, now))
    case OpVoid(kind, s) => Settle(db, VoidSource(db, kind, s))
    case OpManual(kind, s, a, now) => Settle(db, ManualAllocate(db, kind, s, a, now))
    case OpReverse(kind, i, reason) => Settle(db, Reverse(db, kind, i, reason))
    case OpInbound(supplier, currency, amount, due, now) =>
      if amount < 0 then db else AddAccount(db, Payable, supplier, currency, amount, due, now)
    case OpOutbound(customer, currency, amount, due, now) =>
      if amount < 0 then db else ConfirmOutbound(db, customer, currency, amount, due, now)
    case OpCreateMemo(order, payable, amount) => Settle(db, CreateMemo(db, order, payable, amount))
    case OpPostMemo(m, now) => Settle(db, PostMemo(db, m, now))
    case OpRejectMemo(m) => Settle(db, RejectMemo(db, m))
    case OpResubmitMemo(m) => Settle(db, ResubmitMemo(db, m))
    case OpCreateCredit(origin, customer, amount, actor, ready, now) =>
      Settle(db, CreateCredit(db, origin, customer, amount, actor, ready, now))
    case OpPostCredit(s, actor, ready) => Settle(db, PostCredit(db, s, actor, ready))
    case OpRejectCredit(s) => Settle(db, RejectCredit(db, s))
    case OpResubmitCredit(s, amount, actor, ready, now) => Settle(db, ResubmitCredit(db, s, amount, actor, ready, now))
    case OpVoidCredit(s, reason) => Settle(db, VoidCredit(db, s, reason))
    case OpAllocateCredit(m, r, amount, key, now) => Settle2(db, CreditAllocate(db, m, r, amount, key, now))
    case OpReverseCredit(i, reason, key) => Settle2(db, CreditReverse(db, i, reason, key))
  }

  // ---------- Conservation ----------

  ghost predicate Lawful(db: Db) {
    Inv(db) && OneOpenCredit(db)
  }

  lemma AddAccountKeepsInv(db: Db, side: Side, party: nat, currency: string, amount: int, due: Option<int>, now: int)
    requires Inv(db) && amount >= 0
    ensures Inv(AddAccount(db, side, party, currency, amount, due, now))
  {
    var d := AddAccount(db, side, party, currency, amount, due, now);
    var n := |db.accounts|;
    forall i | 0 <= i < |d.allocs| ensures RowOk(d, i) && d.allocs[i].account != n {
      assert RowOk(db, i);
    }
    forall m | 0 <= m < |d.memos| ensures MemoOk(d, m) && d.memos[m].payable != n {
      assert MemoOk(db, m);
    }
    forall s | 0 <= s < |d.sources| ensures SourceOk(d, s) {
      assert SourceOk(db, s);
    }
    HeldNothing(d.allocs, OfAccount(n));
    CreditsNothing(d.memos, n);
    forall a | 0 <= a < |d.accounts| ensures AccountOk(d, a) {
      assert a < n ==> AccountOk(db, a);
    }
  }

  lemma {:induction false} CreditsNothing(memos: seq<ApMemo>, payable: nat)
    requires forall m :: 0 <= m < |memos| ==> memos[m].payable != payable
    ensures Credits(memos, payable) == 0
  {
    if memos != [] {
      CreditsNothing(memos[..|memos| - 1], payable);
    }
  }

  lemma RegisterKeepsInv(db: Db, kind: Kind, party: Option<nat>, currency: string, amount: int, now: int)
    requires Inv(db)
    ensures var r := Register(db, kind, party, currency, amount, now); r.Ok? ==> Inv(r.value)
  {
    if Register(db, kind, party, currency, amount, now).Ok? {
      var src := Source(kind, party, currency, amount, 0, Live, now, 0, 0);
      AddSourceKeepsInv(db, src);
      AutoAllocateKeepsInv(AddSource(db, src), |db.sources|, now);
    }
  }

  /** A claim finds a receipt with nothing matched, because unclaimed receipts hold no row. */
  lemma ClaimKeepsInv(db: Db, s: nat, customer: nat, now: int)
    requires Inv(db)
    ensures var r := Claim(db, s, customer, now); r.Ok? ==> Inv(r.value)
  {
    if Claim(db, s, customer, now).Ok? {
      ActiveIffMatched(db, s);
      assert SourceOk(db, s);
      IdleSourceEditKeepsInv(db, s, db.sources[s].(party := Some(customer)));
      var d := SetParty(db, s, customer);
      assert SourceOk(d, s);
      ActiveIffMatched(d, s);
      AutoAllocateKeepsInv(d, s, now);
    }
  }

  lemma VoidKeepsInv(db: Db, kind: Kind, s: nat)
    requires Inv(db)
    ensures var r := VoidSource(db, kind, s); r.Ok? ==> Inv(r.value)
  {
    if VoidSource(db, kind, s).Ok? {
      assert SourceOk(db, s);
      IdleSourceEditKeepsInv(db, s, db.sources[s].(status := Voided));
    }
  }

  /** Only a live source holds rows, so approving, rejecting and voiding a credit touch none. */
  lemma CreditStatusKeepsInv(db: Db, s: nat, status: Status)
    requires Inv(db) && IsCredit(db, s)
    requires db.sources[s].status != Live || !HasActive(db, s)
    ensures Inv(SetStatus(db, s, status))
  {
    assert SourceOk(db, s);
    ActiveIffMatched(db, s);
    IdleSourceEditKeepsInv(db, s, db.sources[s].(status := status));
  }

  lemma ConfirmOutboundKeepsInv(db: Db, customer: nat, currency: string, amount: int, due: Option<int>, now: int)
    requires Inv(db) && amount >= 0
    ensures Inv(ConfirmOutbound(db, customer, currency, amount, due, now))
  {
    AddAccountKeepsInv(db, Receivable, customer, currency, amount, due, now);
    var d := AddAccount(db, Receivable, customer, currency, amount, due, now);
    CreditFromKeepsInv(d, |db.accounts|, CreditIds(d, |db.accounts|), now);
  }

  lemma PostMemoKeepsInv(db: Db, m: nat, now: int)
    requires Inv(db) && Wired(db)
    ensures var r := PostMemo(db, m, now); r.Ok? ==> Inv(r.value)
  {
    if PostMemo(db, m, now).Ok? {
      var ids, takes := PostMemoIsExact(db, m, now);
    }
  }

  predicate OnEngine(op: Op) {
    op.OpRegister? || op.OpClaim? || op.OpVoid? || op.OpManual? || op.OpReverse? || op.OpInbound? || op.OpOutbound?
  }

  predicate OnSupplierMemo(op: Op) {
    op.OpCreateMemo? || op.OpPostMemo? || op.OpRejectMemo? || op.OpResubmitMemo?
  }

  lemma EngineStepKeepsInv(db: Db, op: Op)
    requires Inv(db) && Wired(db) && OnEngine(op)
    ensures Inv(Step(db, op))
  {
    match op
    case OpRegister(kind, party, currency, amount, now) => RegisterKeepsInv(db, kind, party, currency, amount, now);
    case OpClaim(s, customer, now) => ClaimKeepsInv(db, s, customer, now);
    case OpVoid(kind, s) => VoidKeepsInv(db, kind, s);
    case OpManual(kind, s, a, now) => ManualAllocateKeepsInv(db, kind, s, a, now);
    case OpReverse(kind, i, reason) => ReverseKeepsInv(db, kind, i, reason);
    case OpInbound(supplier, currency, amount, due, now) =>
      if amount >= 0 {
        AddAccountKeepsInv(db, Payable, supplier, currency, amount, due, now);
      }
    case OpOutbound(customer, currency, amount, due, now) =>
      if amount >= 0 {
        ConfirmOutboundKeepsInv(db, customer, currency, amount, due, now);
      }
  }

  lemma SupplierMemoStepKeepsInv(db: Db, op: Op)
    requires Inv(db) && Wired(db) && OnSupplierMemo(op)
    ensures Inv(Step(db, op))
  {
    match op
    case OpCreateMemo(order, payable, amount) => CreateMemoKeepsInv(db, order, payable, amount);
    case OpPostMemo(m, now) => PostMemoKeepsInv(db, m, now);
    case OpRejectMemo(m) => RejectMemoKeepsInv(db, m);
    case OpResubmitMemo(m) => ResubmitMemoKeepsInv(db, m);
  }

  lemma CustomerCreditStepKeepsInv(db: Db, op: Op)
    requires Inv(db) && Wired(db) && !OnEngine(op) && !OnSupplierMemo(op)
    ensures Inv(Step(db, op))
  {
    match op
    case OpCreateCredit(origin, customer, amount, actor, ready, now) =>
      if CreateCredit(db, origin, customer, amount, actor, ready, now).Ok? {
        AddSourceKeepsInv(db, NewCredit(origin, customer, amount, actor, now));
      }
    case OpPostCredit(s, actor, ready) =>
      if PostCredit(db, s, actor, ready).Ok? {
        CreditStatusKeepsInv(db, s, Live);
      }
    case OpRejectCredit(s) =>
      if RejectCredit(db, s).Ok? {
        CreditStatusKeepsInv(db, s, Rejected);
      }
    case OpResubmitCredit(s, amount, actor, ready, now) =>
      if ResubmitCredit(db, s, amount, actor, ready, now).Ok? {
        AddSourceKeepsInv(db, NewCredit(db.sources[s].origin, db.sources[s].party.value, amount, actor, now));
      }
    case OpVoidCredit(s, reason) =>
      if VoidCredit(db, s, reason).Ok? {
        CreditStatusKeepsInv(db, s, Voided);
      }
    case OpAllocateCredit(m, r, amount, key, now) => CreditAllocateKeepsInv(db, m, r, amount, key, now);
    case OpReverseCredit(i, reason, key) => CreditReverseKeepsInv(db, i, reason, key);
  }

  lemma StepKeepsInv(db: Db, op: Op)
    requires Inv(db) && Wired(db)
    ensures Inv(Step(db, op))
  {
    if OnEngine(op) {
      EngineStepKeepsInv(db, op);
    } else if OnSupplierMemo(op) {
      SupplierMemoStepKeepsInv(db, op);
    } else {
      CustomerCreditStepKeepsInv(db, op);
    }
  }

  /** A state some run reaches. */
  function Run(db: Db, ops: seq<Op>): (d: Db)
    requires Inv(db)
    ensures Inv(d) && Wired(d)
    decreases ops
  {
    InvIsWired(db);
    if ops == [] then db
    else
      StepKeepsInv(db, ops[0]);
      Run(Step(db, ops[0]), ops[1..])
  }

  /**
   Conservation: in every reachable ledger each running total is the sum of its active rows,
   stays within its amount, and every active row joins a live source to an account of the
   same party and currency.
   */
  lemma EveryRunConserves(ops: seq<Op>)
    ensures Inv(Run(EMPTY, ops))
    ensures var db := Run(EMPTY, ops);
            && (forall s :: 0 <= s < |db.sources| ==>
                  0 <= db.sources[s].matched == Held(db.allocs, OfSource(s)) <= db.sources[s].amount)
            && (forall a :: 0 <= a < |db.accounts| ==>
                  0 <= db.accounts[a].matched == Held(db.allocs, OfAccount(a))
                  && db.accounts[a].matched + db.accounts[a].credited <= db.accounts[a].original)
  {
    var db := Run(EMPTY, ops);
    forall i | 0 <= i < |db.allocs| ensures db.allocs[i].amount > 0 {
      assert RowOk(db, i);
    }
    forall s | 0 <= s < |db.sources|
      ensures 0 <= db.sources[s].matched == Held(db.allocs, OfSource(s)) <= db.sources[s].amount
    {
      assert SourceOk(db, s);
      HeldBounds(db.allocs, OfSource(s));
    }
    forall a | 0 <= a < |db.accounts|
      ensures 0 <= db.accounts[a].matched == Held(db.allocs, OfAccount(a))
      ensures db.accounts[a].matched + db.accounts[a].credited <= db.accounts[a].original
    {
      assert AccountOk(db, a);
      HeldBounds(db.allocs, OfAccount(a));
    }
  }

  /** An unclaimed receipt, a voided source and a credit that is not posted hold no active row. */
  lemma IdleSourcesHoldNothing(ops: seq<Op>, s: nat)
    requires s < |Run(EMPTY, ops).sources|
    ensures var db := Run(EMPTY, ops);
            (db.sources[s].party.None? || db.sources[s].status != Live)
            ==> db.sources[s].matched == 0 && !HasActive(db, s)
  {
    var db := Run(EMPTY, ops);
    ActiveIffMatched(db, s);
    assert SourceOk(db, s);
    forall i | 0 <= i < |db.allocs| ensures db.allocs[i].amount > 0 {
      assert RowOk(db, i);
    }
    HeldBounds(db.allocs, OfSource(s));
  }

  // ---------- History: rows are appended, and reversed at most once ----------

  lemma {:induction false} AutoFromHistory(db: Db, s: nat, ids: seq<nat>, now: int)
    requires s < |db.sources| && Indexed(db.accounts, ids)
    ensures History(db.allocs, AutoFrom(db, s, ids, now).allocs)
    decreases ids
  {
    if ids != [] && Remaining(db.sources[s]) > 0 {
      var d := if db.accounts[ids[0]].voided then db else TakeOne(db, s, ids[0], true, now);
      AutoFromHistory(d, s, ids[1..], now);
    }
  }

  lemma {:induction false} CreditFromHistory(db: Db, r: nat, ids: seq<nat>, now: int)
    requires r < |db.accounts| && SourceIds(db.sources, ids)
    ensures History(db.allocs, CreditFrom(db, r, ids, now).allocs)
    decreases ids
  {
    if ids != [] && Outstanding(db.accounts[r]) > 0 {
      CreditFromHistory(UseCredit(db, r, ids[0], now), r, ids[1..], now);
    }
  }

  lemma PostMemoHistory(db: Db, m: nat, now: int)
    requires Inv(db) && Wired(db)
    ensures History(db.allocs, Settle(db, PostMemo(db, m, now)).allocs)
  {
    var r := PostMemo(db, m, now);
    if r.Ok? {
      var ids, takes := PostMemoIsExact(db, m, now);
      var mid := Release(db, db.memos[m].payable, db.memos[m].amount, now).value;
      forall k | 0 <= k < |ids| ensures !db.allocs[ids[k]].reversed {
        assert ids[k] in ids;
      }
      ReleasedRowsHistory(db.allocs, mid.allocs, ids, takes, now);
    }
  }

  lemma ReleasedRowsHistory(rows: seq<Alloc>, after: seq<Alloc>, ids: seq<nat>, takes: seq<int>, now: int)
    requires RowIds(rows, ids) && |takes| == |ids| && ReleasedRows(rows, after, ids, takes, now)
    requires forall k :: 0 <= k < |ids| ==> !rows[ids[k]].reversed
    ensures History(rows, after)
  {
    forall i | 0 <= i < |rows| ensures RowLater(rows[i], after[i]) {
      if i in ids {
        var k :| 0 <= k < |ids| && ids[k] == i;
      }
    }
  }

  predicate StartsALoop(op: Op) {
    op.OpRegister? || op.OpClaim? || op.OpOutbound?
  }

  lemma LoopHistory(db: Db, op: Op)
    requires Inv(db) && Wired(db) && StartsALoop(op)
    ensures History(db.allocs, Step(db, op).allocs)
  {
    match op
    case OpRegister(kind, party, currency, amount, now) =>
      var src := Source(kind, party, currency, amount, 0, Live, now, 0, 0);
      var d := AddSource(db, src);
      AutoFromHistory(d, |db.sources|, OpenIds(d, |db.sources|), now);
    case OpClaim(s, customer, now) =>
      if s < |db.sources| {
        var d := SetParty(db, s, customer);
        AutoFromHistory(d, s, OpenIds(d, s), now);
      }
    case OpOutbound(customer, currency, amount, due, now) =>
      var d := AddAccount(db, Receivable, customer, currency, amount, due, now);
      CreditFromHistory(d, |db.accounts|, CreditIds(d, |db.accounts|), now);
  }

  lemma StepHistory(db: Db, op: Op)
    requires Inv(db) && Wired(db)
    ensures History(db.allocs, Step(db, op).allocs)
  {
    if StartsALoop(op) {
      LoopHistory(db, op);
    } else if op.OpPostMemo? {
      PostMemoHistory(db, op.m, op.now);
    }
  }

  lemma {:induction false} RunHistory(db: Db, ops: seq<Op>)
    requires Inv(db)
    ensures History(db.allocs, Run(db, ops).allocs)
    decreases ops
  {
    if ops != [] {
      InvIsWired(db);
      StepKeepsInv(db, ops[0]);
      StepHistory(db, ops[0]);
      RunHistory(Step(db, ops[0]), ops[1..]);
    }
  }

  /**
   Exactly once: after a key has made its row, whatever happens in between (also the reversal
   of that row), every later call with the key changes nothing; it returns that same row when
   it asks for the same memo, receivable and amount, and is a conflict otherwise.
   */
  lemma AllocationKeyActsOnce(db: Db, m: nat, r: nat, amount: Option<int>, key: Key, now: int, ops: seq<Op>,
                              m2: nat, r2: nat, amount2: Option<int>, later: int)
    requires Inv(db) && CreditAllocate(db, m, r, amount, key, now).Ok?
    ensures Inv(CreditAllocate(db, m, r, amount, key, now).value.0)
    ensures var done := CreditAllocate(db, m, r, amount, key, now).value;
            var after := Run(done.0, ops);
            var again := CreditAllocate(after, m2, r2, amount2, key, later);
            var row := done.0.allocs[done.1];
            && row.source == m && row.account == r && (amount.Some? ==> row.amount == amount.value)
            && again == (if row.source == m2 && row.account == r2 && (amount2 == None || amount2 == Some(row.amount))
                         then Ok((after, done.1)) else Err(IdempotencyConflict))
            && Step(after, OpAllocateCredit(m2, r2, amount2, key, later)) == after
  {
    CreditAllocateKeepsInv(db, m, r, amount, key, now);
    AllocatedRowCarriesKey(db, m, r, amount, key, now);
    var done := CreditAllocate(db, m, r, amount, key, now).value;
    RunHistory(done.0, ops);
    var after := Run(done.0, ops);
    assert RowLater(done.0.allocs[done.1], after.allocs[done.1]);
    KeyDecidesTheCall(after, done.1, key, m2, r2, amount2, later);
  }

  /** A call with a key that has its row already: the row decides, and nothing is written. */
  lemma KeyDecidesTheCall(db: Db, i: nat, key: Key, m: nat, r: nat, amount: Option<int>, now: int)
    requires Inv(db) && Wired(db) && i < |db.allocs| && db.allocs[i].key == Some(key)
    ensures CreditAllocate(db, m, r, amount, key, now) ==
              if SameRequest(db.allocs[i], m, r, amount) then Ok((db, i)) else Err(IdempotencyConflict)
    ensures Step(db, OpAllocateCredit(m, r, amount, key, now)) == db
  {
    KeyRowIsTheRow(db, i);
  }

  lemma AllocatedRowCarriesKey(db: Db, m: nat, r: nat, amount: Option<int>, key: Key, now: int)
    requires CreditAllocate(db, m, r, amount, key, now).Ok?
    ensures var done := CreditAllocate(db, m, r, amount, key, now).value;
            && done.1 < |done.0.allocs| && done.0.allocs[done.1].key == Some(key)
            && SameRequest(done.0.allocs[done.1], m, r, amount)
  {}

  /** The same for reversal keys. */
  lemma ReversalKeyActsOnce(db: Db, i: nat, reason: string, key: Key, ops: seq<Op>, i2: nat, reason2: string)
    requires Inv(db) && CreditReverse(db, i, reason, key).Ok? && reason2 != ""
    ensures Inv(CreditReverse(db, i, reason, key).value.0)
    ensures var done := CreditReverse(db, i, reason, key).value;
            var after := Run(done.0, ops);
            && done.1 == i
            && CreditReverse(after, i2, reason2, key)
               == (if i2 == i && reason2 == reason then Ok((after, i)) else Err(IdempotencyConflict))
            && Step(after, OpReverseCredit(i2, reason2, key)) == after
  {
    CreditReverseKeepsInv(db, i, reason, key);
    var done := CreditReverse(db, i, reason, key).value;
    ReversedRowCarriesKey(db, i, reason, key);
    RunHistory(done.0, ops);
    var after := Run(done.0, ops);
    assert RowLater(done.0.allocs[i], after.allocs[i]);
    KeyRowIsTheRow(after, i);
  }

  lemma ReversedRowCarriesKey(db: Db, i: nat, reason: string, key: Key)
    requires Inv(db) && CreditReverse(db, i, reason, key).Ok?
    ensures var done := CreditReverse(db, i, reason, key).value;
            && done.1 == i < |done.0.allocs| && done.0.allocs[i].undoKey == Some(key)
            && done.0.allocs[i].undoReason == reason && done.0.allocs[i].reversed
  {
    if i < |db.allocs| {
      assert RowOk(db, i);
    }
  }

  // ---------- One open credit per disposition ----------

  /** The columns that decide who is open and where money may still come from. */
  ghost predicate SameStanding(before: seq<Source>, after: seq<Source>) {
    |before| == |after| && forall s :: 0 <= s < |before| ==> after[s] == before[s].(matched := after[s].matched)
  }

  lemma {:induction false} AutoFromStanding(db: Db, s: nat, ids: seq<nat>, now: int)
    requires s < |db.sources| && Indexed(db.accounts, ids)
    ensures SameStanding(db.sources, AutoFrom(db, s, ids, now).sources)
    decreases ids
  {
    if ids != [] && Remaining(db.sources[s]) > 0 {
      var d := if db.accounts[ids[0]].voided then db else TakeOne(db, s, ids[0], true, now);
      AutoFromStanding(d, s, ids[1..], now);
    }
  }

  lemma {:induction false} CreditFromStanding(db: Db, r: nat, ids: seq<nat>, now: int)
    requires r < |db.accounts| && SourceIds(db.sources, ids)
    ensures SameStanding(db.sources, CreditFrom(db, r, ids, now).sources)
    decreases ids
  {
    if ids != [] && Outstanding(db.accounts[r]) > 0 {
      CreditFromStanding(UseCredit(db, r, ids[0], now), r, ids[1..], now);
    }
  }

  lemma StandingKeepsOneOpenCredit(db: Db, d: Db)
    requires OneOpenCredit(db) && SameStanding(db.sources, d.sources)
    ensures OneOpenCredit(d)
  {
    forall s, t | 0 <= s < t < |d.sources| && OpenCredit(d.sources[s]) && OpenCredit(d.sources[t])
      ensures d.sources[s].origin != d.sources[t].origin
    {
      assert OpenCredit(db.sources[s]) && OpenCredit(db.sources[t]);
    }
  }

  lemma AutoAllocateKeepsOneOpenCredit(db: Db, s: nat, now: int)
    requires OneOpenCredit(db) && s < |db.sources|
    ensures OneOpenCredit(AutoAllocate(db, s, now))
  {
    AutoFromStanding(db, s, OpenIds(db, s), now);
    StandingKeepsOneOpenCredit(db, AutoAllocate(db, s, now));
  }

  lemma ConfirmOutboundKeepsOneOpenCredit(db: Db, customer: nat, currency: string, amount: int, due: Option<int>, now: int)
    requires OneOpenCredit(db)
    ensures OneOpenCredit(ConfirmOutbound(db, customer, currency, amount, due, now))
  {
    var d := AddAccount(db, Receivable, customer, currency, amount, due, now);
    CreditFromStanding(d, |db.accounts|, CreditIds(d, |db.accounts|), now);
    StandingKeepsOneOpenCredit(db, ConfirmOutbound(db, customer, currency, amount, due, now));
  }

  lemma PostMemoKeepsOneOpenCredit(db: Db, m: nat, now: int)
    requires Inv(db) && Wired(db) && OneOpenCredit(db)
    ensures var r := PostMemo(db, m, now); r.Ok? ==> OneOpenCredit(r.value)
  {
    var r := PostMemo(db, m, now);
    if r.Ok? {
      var ids, takes := PostMemoIsExact(db, m, now);
      StandingKeepsOneOpenCredit(db, r.value);
    }
  }

  lemma EngineStepKeepsOneOpenCredit(db: Db, op: Op)
    requires Inv(db) && Wired(db) && OneOpenCredit(db) && OnEngine(op)
    ensures OneOpenCredit(Step(db, op))
  {
    match op
    case OpRegister(kind, party, currency, amount, now) =>
      var src := Source(kind, party, currency, amount, 0, Live, now, 0, 0);
      if kind != CreditMemo {
        AutoAllocateKeepsOneOpenCredit(AddSource(db, src), |db.sources|, now);
      }
    case OpClaim(s, customer, now) =>
      if s < |db.sources| {
        AutoAllocateKeepsOneOpenCredit(SetParty(db, s, customer), s, now);
      }
    case OpOutbound(customer, currency, amount, due, now) =>
      ConfirmOutboundKeepsOneOpenCredit(db, customer, currency, amount, due, now);
    case _ =>
  }

  lemma MemoStepKeepsOneOpenCredit(db: Db, op: Op)
    requires Inv(db) && Wired(db) && OneOpenCredit(db) && !OnEngine(op)
    ensures OneOpenCredit(Step(db, op))
  {
    if op.OpPostMemo? { PostMemoKeepsOneOpenCredit(db, op.m, op.now); }
  }

  lemma StepKeepsOneOpenCredit(db: Db, op: Op)
    requires Inv(db) && Wired(db) && OneOpenCredit(db)
    ensures OneOpenCredit(Step(db, op))
  {
    if OnEngine(op) {
      EngineStepKeepsOneOpenCredit(db, op);
    } else {
      MemoStepKeepsOneOpenCredit(db, op);
    }
  }

  /** In every reachable ledger a disposition order has at most one open credit memo. */
  lemma {:induction false} EveryRunKeepsOneOpenCredit(db: Db, ops: seq<Op>)
    requires Lawful(db)
    ensures Lawful(Run(db, ops))
    decreases ops
  {
    if ops != [] {
      InvIsWired(db);
      StepKeepsInv(db, ops[0]);
      StepKeepsOneOpenCredit(db, ops[0]);
      EveryRunKeepsOneOpenCredit(Step(db, ops[0]), ops[1..]);
    }
  }
}
