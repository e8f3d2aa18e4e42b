/**
 The guards of the ledger against its invariant: which requests are accepted, exactly, and which
 way a source or a memo can move over whole runs.
 */
module LedgerGuards {
  import opened Base
  import opened LedgerRows
  import opened Engine
  import opened ApCredit
  import opened CustomerCredit
  import opened LedgerRuns

  /** The step is accepted exactly when `legal` and the ledger n is in order, and leads to n; r is what it returns. */
  ghost predicate Exactly<E>(db: Db, op: Op, r: Result<Db, E>, legal: bool, n: Db)
    requires Wired(db)
  {
    && (r.Ok? <==> legal && Inv(n)) && (r.Ok? ==> r.value == n)
    && Step(db, op) == if legal && Inv(n) then n else db
  }

  // ---------- Allocations ----------

  /** A new active row keeps the ledger in order exactly when it joins live money to a debt of the same
      party and currency, within what both have left, on a pair or a key not yet in use. */
  lemma AttachIsExact(db: Db, row: Alloc)
    requires Inv(db) && row.source < |db.sources| && row.account < |db.accounts|
    requires !row.reversed && row.undoKey == None
    ensures Inv(Attach(db, row)) <==> Attachable(db, row)
  {
    var d := Attach(db, row);
    var last := |db.allocs|;
    if Attachable(db, row) { AttachKeepsInv(db, row); }
    if Inv(d) {
      assert RowOk(d, last) && SourceOk(d, row.source) && AccountOk(d, row.account);
      AttachedTotals(db, row);
      forall i | 0 <= i < last ensures row.key.Some? ==> db.allocs[i].key != row.key {
        assert d.allocs[i] == db.allocs[i] && d.allocs[last] == row;
      }
      forall i | 0 <= i < last && !db.allocs[i].reversed
                 && db.allocs[i].source == row.source && db.allocs[i].account == row.account
        ensures row.key.Some?
      {
        assert d.allocs[i] == db.allocs[i] && d.allocs[last] == row && RowOk(db, i);
      }
    }
  }

  lemma AttachedTotals(db: Db, row: Alloc)
    requires row.source < |db.sources| && row.account < |db.accounts|
    ensures var d := Attach(db, row);
            && d.sources[row.source] == db.sources[row.source].(matched := db.sources[row.source].matched + row.amount)
            && d.accounts[row.account]
               == db.accounts[row.account].(matched := db.accounts[row.account].matched + row.amount)
  {}

  /** The ledger after `take` moves from a source to an account, with its row. */
  function Moved(db: Db, row: Alloc): Db
    requires row.source < |db.sources| && row.account < |db.accounts|
  {
    var src, acc := db.sources[row.source], db.accounts[row.account];
    Db(db.sources[row.source := src.(matched := src.matched + row.amount)],
       db.accounts[row.account := acc.(matched := acc.matched + row.amount)], db.allocs + [row], db.memos)
  }

  /** A manual allocation takes all that both sides allow, and is refused only where that would break a rule. */
  lemma ManualAllocateIsExact(db: Db, kind: Kind, s: nat, a: nat, now: int)
    requires Inv(db) && Wired(db) && s < |db.sources| && a < |db.accounts|
    ensures
      var src, acc := db.sources[s], db.accounts[a];
      var take := Min(src.amount - src.matched, acc.original - acc.credited - acc.matched);
      Exactly(db, OpManual(kind, s, a, now), ManualAllocate(db, kind, s, a, now), kind != CreditMemo && src.kind == kind && !acc.voided,
              Moved(db, Alloc(s, a, take, false, now, false, None, None, "")))
  {
    assert SourceOk(db, s);
    var take := Min(Remaining(db.sources[s]), Outstanding(db.accounts[a]));
    AttachIsExact(db, Alloc(s, a, take, false, now, false, None, None, ""));
  }

  /** The ledger after an active row is given back on both sides, with its trace. */
  function Undone(db: Db, i: nat, undoKey: Option<Key>, reason: string): Db
    requires i < |db.allocs| && db.allocs[i].source < |db.sources| && db.allocs[i].account < |db.accounts|
  {
    var row := db.allocs[i];
    var src, acc := db.sources[row.source], db.accounts[row.account];
    Db(db.sources[row.source := src.(matched := src.matched - row.amount)],
       db.accounts[row.account := acc.(matched := acc.matched - row.amount)],
       db.allocs[i := Alloc(row.source, row.account, row.amount, row.auto, row.createdAt, true, row.key, undoKey, reason)],
       db.memos)
  }

  /** Exactly the active rows of receipts, or of payments, can be reversed there; both sides get the amount back. */
  lemma ReverseIsExact(db: Db, kind: Kind, i: nat, reason: string)
    requires Inv(db) && Wired(db) && i < |db.allocs|
    ensures db.allocs[i].source < |db.sources| && db.allocs[i].account < |db.accounts|
    ensures Exactly(db, OpReverse(kind, i, reason), Reverse(db, kind, i, reason),
                    !db.allocs[i].reversed && kind != CreditMemo && db.sources[db.allocs[i].source].kind == kind,
                    Undone(db, i, None, reason))
  {
    assert RowOk(db, i);
    if Reverse(db, kind, i, reason).Ok? { ReverseKeepsInv(db, kind, i, reason); }
    if ReversibleRow(db, kind, i) { DetachKeepsInv(db, i, None, reason); }
  }

  /** The same for a customer credit under a fresh key, with the amount asked for or all there is. */
  lemma CreditAllocateIsExact(db: Db, m: nat, r: nat, amount: Option<int>, key: Key, now: int)
    requires Inv(db) && Wired(db) && m < |db.sources| && r < |db.accounts| && !KeyUsed(db, key)
    ensures
      var src, acc := db.sources[m], db.accounts[r];
      var take := if amount.Some? then amount.value
                  else Min(src.amount - src.matched, acc.original - acc.credited - acc.matched);
      var n := Moved(db, Alloc(m, r, take, false, now, false, Some(key), None, ""));
      var res := CreditAllocate(db, m, r, amount, key, now);
      && (res.Ok? <==> src.kind == CreditMemo && !acc.voided && Inv(n))
      && (res.Ok? ==> res.value == (n, |db.allocs|))
      && Step(db, OpAllocateCredit(m, r, amount, key, now)) == if res.Ok? then n else db
  {
    var take := if amount.Some? then amount.value else Min(Remaining(db.sources[m]), Outstanding(db.accounts[r]));
    AttachIsExact(db, Alloc(m, r, take, false, now, false, Some(key), None, ""));
    assert KeyRow(db.allocs, key).None?;
  }

  /** Under a fresh reversal key exactly the active rows of customer credits can be reversed, with a reason. */
  lemma CreditReverseIsExact(db: Db, i: nat, reason: string, key: Key)
    requires Inv(db) && Wired(db) && i < |db.allocs| && !UndoKeyUsed(db, key)
    ensures db.allocs[i].source < |db.sources| && db.allocs[i].account < |db.accounts|
    ensures
      var res := CreditReverse(db, i, reason, key);
      && (res.Ok? <==> reason != "" && !db.allocs[i].reversed && db.sources[db.allocs[i].source].kind == CreditMemo)
      && (res.Ok? ==> res.value == (Undone(db, i, Some(key), reason), i) && Inv(res.value.0))
      && Step(db, OpReverseCredit(i, reason, key)) == if res.Ok? then res.value.0 else db
  {
    assert RowOk(db, i);
    assert UndoRow(db.allocs, key).None?;
    CreditReverseKeepsInv(db, i, reason, key);
  }

  // ---------- Refusals ----------

  /** What an error says of a source, an account and the amount asked for; no other error is raised for them. */
  ghost predicate Says(db: Db, e: Engine.Error, kind: Kind, s: nat, a: nat, wanted: int) {
    var known := s < |db.sources| && db.sources[s].kind == kind;
    var owed := a < |db.accounts| && db.accounts[a].side == SideOf(kind);
    match e
    case NotFound => !known || !owed
    case SourceVoided => known && db.sources[s].status == Voided
    case SourceInvalid => known && db.sources[s].status != Live
    case NotUnclaimed => known && db.sources[s].party.None?
    case AccountVoided => owed && db.accounts[a].voided
    case CounterpartyMismatch => known && owed && db.sources[s].party != Some(db.accounts[a].party)
    case CurrencyMismatch => known && owed && db.sources[s].currency != db.accounts[a].currency
    case PairAlreadyActive => exists i :: 0 <= i < |db.allocs| && !db.allocs[i].reversed
                                          && db.allocs[i].source == s && db.allocs[i].account == a
    case ExceedsSource => known && (wanted <= 0 || wanted > db.sources[s].amount - db.sources[s].matched)
    case ExceedsAccount => known && owed && wanted > db.accounts[a].original - db.accounts[a].credited - db.accounts[a].matched
    case _ => false
  }

  /** An allocation is refused for a reason that holds. */
  lemma AllocationErrorsAreTrue(db: Db, kind: Kind, s: nat, a: nat, now: int)
    requires Inv(db) && kind != CreditMemo
    ensures var r := ManualAllocate(db, kind, s, a, now);
            r.Err? ==> Says(db, r.error, kind, s, a, 1)
  {}

  lemma CreditErrorsAreTrue(db: Db, s: nat, a: nat, amount: Option<int>, key: Key, now: int)
    requires Inv(db)
    ensures var r := CreditAllocate(db, s, a, amount, key, now);
            r.Err? ==> if KeyUsed(db, key) then r.error == IdempotencyConflict
                       else Says(db, r.error, CreditMemo, s, a, if amount.Some? then amount.value else 1)
                            || (r.error == ExceedsSource && Says(db, r.error, CreditMemo, s, a, 1))
                            || (r.error == ExceedsAccount && Says(db, r.error, CreditMemo, s, a, 1))
  {
    if KeyUsed(db, key) {
      assert KeyRow(db.allocs, key).Some?;
    }
  }

  /** So are a claim, a voiding and a reversal. */
  lemma OtherErrorsAreTrue(db: Db, kind: Kind, s: nat, customer: nat, i: nat, reason: string, now: int)
    requires Inv(db) && kind != CreditMemo
    ensures Claim(db, s, customer, now).Err? ==>
              var found := s < |db.sources| && db.sources[s].kind == Receipt;
              match Claim(db, s, customer, now).error
              case NotFound => !found
              case SourceVoided => found && db.sources[s].status == Voided
              case NotUnclaimed => found && db.sources[s].party.Some?
              case _ => false
    ensures VoidSource(db, kind, s).Err? ==>
              var found := s < |db.sources| && db.sources[s].kind == kind;
              match VoidSource(db, kind, s).error
              case NotFound => !found
              case SourceVoided => found && db.sources[s].status == Voided
              case HasActiveAllocations => found && db.sources[s].matched > 0
              case _ => false
    ensures Reverse(db, kind, i, reason).Err? ==> Reverse(db, kind, i, reason).error == ReverseNotFound
  {
    if s < |db.sources| { ActiveIffMatched(db, s); }
  }

  // ---------- Voiding ----------

  /** A receipt or a payment can be voided exactly while no active row rests on it. */
  lemma VoidSourceIsExact(db: Db, kind: Kind, s: nat)
    requires Inv(db) && Wired(db) && s < |db.sources|
    ensures Exactly(db, OpVoid(kind, s), VoidSource(db, kind, s), kind != CreditMemo && db.sources[s].kind == kind && db.sources[s].status == Live,
                    db.(sources := db.sources[s := db.sources[s].(status := Voided)]))
  {
    assert SourceOk(db, s);
    if VoidSource(db, kind, s).Ok? { VoidKeepsInv(db, kind, s); }
    if Inv(SetStatus(db, s, Voided)) { NothingRestsOnDeadMoney(SetStatus(db, s, Voided), s); }
  }

  lemma VoidCreditIsExact(db: Db, s: nat, reason: string)
    requires Inv(db) && Wired(db) && s < |db.sources|
    ensures Exactly(db, OpVoidCredit(s, reason), VoidCredit(db, s, reason),
                    reason != "" && db.sources[s].kind == CreditMemo && db.sources[s].status != Voided,
                    db.(sources := db.sources[s := db.sources[s].(status := Voided)]))
  {
    if VoidCredit(db, s, reason).Ok? { CreditStatusKeepsInv(db, s, Voided); }
    if Inv(SetStatus(db, s, Voided)) { NothingRestsOnDeadMoney(SetStatus(db, s, Voided), s); }
  }

  lemma NothingRestsOnDeadMoney(db: Db, s: nat)
    requires Inv(db) && s < |db.sources| && db.sources[s].status != Live
    ensures !HasActive(db, s)
  {
    forall i | 0 <= i < |db.allocs| && db.allocs[i].source == s ensures db.allocs[i].reversed {
      assert RowOk(db, i);
    }
  }

  // ---------- Credit memos ----------

  /** A supplier credit is opened, or opened again after a rejection, exactly when its return has none open, and
      rejected exactly while it is pending; a return with nothing to credit opens none. */
  lemma SupplierMemosAreExact(db: Db, order: nat, payable: nat, amount: int, m: nat)
    requires Inv(db) && Wired(db)
    ensures
      var active := payable < |db.accounts| && db.accounts[payable].side == Payable && !db.accounts[payable].voided;
      Exactly(db, OpCreateMemo(order, payable, amount), CreateMemo(db, order, payable, amount), active,
              if amount <= 0 then db else db.(memos := db.memos + [ApMemo(payable, order, amount, Pending)]))
    ensures m < |db.memos| ==>
              var memo := db.memos[m];
              && memo.payable < |db.accounts|
              && Exactly(db, OpResubmitMemo(m), ResubmitMemo(db, m), memo.status == Rejected && !db.accounts[memo.payable].voided,
                         db.(memos := db.memos + [ApMemo(memo.payable, memo.order, memo.amount, Pending)]))
              && Exactly(db, OpRejectMemo(m), RejectMemo(db, m), memo.status == Pending,
                         db.(memos := db.memos[m := ApMemo(memo.payable, memo.order, memo.amount, Rejected)]))
    ensures m >= |db.memos| ==> ResubmitMemo(db, m).Err? && RejectMemo(db, m).Err?
  {
    var memo := ApMemo(payable, order, amount, Pending);
    if amount > 0 {
      CreateMemoKeepsInv(db, order, payable, amount);
      if Inv(db.(memos := db.memos + [memo])) { NoOtherMemoIsOpen(db, memo); }
    }
    if m < |db.memos| { KnownMemosAreExact(db, m); }
  }

  lemma KnownMemosAreExact(db: Db, m: nat)
    requires Inv(db) && Wired(db) && m < |db.memos|
    ensures
      var memo := db.memos[m];
      && memo.payable < |db.accounts|
      && Exactly(db, OpResubmitMemo(m), ResubmitMemo(db, m), memo.status == Rejected && !db.accounts[memo.payable].voided,
                 db.(memos := db.memos + [ApMemo(memo.payable, memo.order, memo.amount, Pending)]))
      && Exactly(db, OpRejectMemo(m), RejectMemo(db, m), memo.status == Pending,
                 db.(memos := db.memos[m := ApMemo(memo.payable, memo.order, memo.amount, Rejected)]))
  {
    assert MemoOk(db, m);
    ResubmitMemoKeepsInv(db, m);
    RejectMemoKeepsInv(db, m);
    if Inv(db.(memos := db.memos + [db.memos[m].(status := Pending)])) {
      NoOtherMemoIsOpen(db, db.memos[m].(status := Pending));
    }
  }

  lemma NoOtherMemoIsOpen(db: Db, memo: ApMemo)
    requires OpenMemo(memo) && OneOpenMemo(db.(memos := db.memos + [memo]))
    ensures !HasOpenMemo(db, memo.order)
  {
    var d := db.(memos := db.memos + [memo]);
    forall i | 0 <= i < |db.memos| && OpenMemo(db.memos[i]) ensures db.memos[i].order != memo.order {
      assert OpenMemo(d.memos[i]) && OpenMemo(d.memos[|db.memos|]);
    }
  }

  /** A customer credit is opened exactly when its disposition is done and has none open; its maker cannot post
      it, and anyone else can, once. */
  lemma CustomerCreditsAreExact(db: Db, origin: nat, customer: nat, amount: int, maker: nat, other: nat, ready: bool, now: int)
    requires Lawful(db) && Wired(db) && maker != other
    ensures
      var r := CreateCredit(db, origin, customer, amount, maker, ready, now);
      var memo := Source(CreditMemo, Some(customer), CNY, amount, 0, Pending, now, origin, maker);
      var n := db.(sources := db.sources + [memo]);
      var s := |db.sources|;
      && (r.Ok? <==> ready && amount > 0 && OneOpenCredit(n)) && (r.Ok? ==> r.value == n)
      && Step(db, OpCreateCredit(origin, customer, amount, maker, ready, now)) == (if r.Ok? then n else db)
      && PostCredit(n, s, maker, true) == Err(SourceInvalid)
      && PostCredit(n, s, other, true).Ok?
      && PostCredit(n, s, other, true).value == db.(sources := db.sources + [memo.(status := Live)])
      && PostCredit(PostCredit(n, s, other, true).value, s, other, true).Err?
      && RejectCredit(n, s).Ok?
      && RejectCredit(n, s).value == db.(sources := db.sources + [memo.(status := Rejected)])
  {
    var memo := Source(CreditMemo, Some(customer), CNY, amount, 0, Pending, now, origin, maker);
    var n := db.(sources := db.sources + [memo]);
    var s := |db.sources|;
    assert OneOpenCredit(n) <==> !HasOpenCredit(db, origin) by { OneMoreCredit(db, memo); }
    assert n.sources[s := memo.(status := Live)] == db.sources + [memo.(status := Live)];
    assert n.sources[s := memo.(status := Rejected)] == db.sources + [memo.(status := Rejected)];
  }

  /** Exactly a pending credit can be decided: posted by someone other than its maker once its disposition is
      done, or rejected; either way it is decided for good. */
  lemma CreditsAreDecidedOnce(db: Db, s: nat, actor: nat, ready: bool, later: nat)
    requires Inv(db) && Wired(db) && s < |db.sources|
    ensures
      var src, r := db.sources[s], PostCredit(db, s, actor, ready);
      && Exactly(db, OpPostCredit(s, actor, ready), r,
                 src.kind == CreditMemo && src.status == Pending && src.createdBy != actor && ready,
                 db.(sources := db.sources[s := src.(status := Live)]))
      && (r.Ok? ==> PostCredit(r.value, s, later, true).Err? && RejectCredit(r.value, s).Err?)
    ensures
      var src, r := db.sources[s], RejectCredit(db, s);
      && Exactly(db, OpRejectCredit(s), r, src.kind == CreditMemo && src.status == Pending,
                 db.(sources := db.sources[s := src.(status := Rejected)]))
      && (r.Ok? ==> PostCredit(r.value, s, later, true).Err? && RejectCredit(r.value, s).Err?)
  {
    if PostCredit(db, s, actor, ready).Ok? { CreditStatusKeepsInv(db, s, Live); }
    if RejectCredit(db, s).Ok? { CreditStatusKeepsInv(db, s, Rejected); }
  }

  lemma OneMoreCredit(db: Db, src: Source)
    requires OneOpenCredit(db) && OpenCredit(src)
    ensures OneOpenCredit(AddSource(db, src)) <==> !HasOpenCredit(db, src.origin)
  {
    var n := AddSource(db, src);
    if t :| 0 <= t < |db.sources| && OpenCredit(db.sources[t]) && db.sources[t].origin == src.origin {
      assert OpenCredit(n.sources[t]) && OpenCredit(n.sources[|db.sources|]);
    }
  }

  /** A rejected credit, and no other, is asked for again as a new one, with its origin and party, exactly when
      its disposition is done and has none open. */
  lemma ResubmitCreditIsExact(db: Db, s: nat, amount: int, actor: nat, ready: bool, now: int)
    requires Lawful(db) && Wired(db) && s < |db.sources|
    ensures
      var prior := db.sources[s];
      var n := db.(sources := db.sources + [Source(CreditMemo, prior.party, CNY, amount, 0, Pending, now, prior.origin, actor)]);
      var r := ResubmitCredit(db, s, amount, actor, ready, now);
      && (r.Ok? <==> prior.kind == CreditMemo && prior.status == Rejected && ready && amount > 0 && OneOpenCredit(n))
      && (r.Ok? ==> r.value == n)
      && Step(db, OpResubmitCredit(s, amount, actor, ready, now)) == if r.Ok? then n else db
  {
    assert SourceOk(db, s);
    OneMoreCredit(db, Source(CreditMemo, db.sources[s].party, CNY, amount, 0, Pending, now, db.sources[s].origin, actor));
  }

  // ---------- Which way rows can move ----------

  /** A source keeps its kind, amount, currency, origin and maker; its party is set at most once; it goes
      live, is rejected or voided, and never back. */
  predicate SourceLater(a: Source, b: Source) {
    && b == a.(party := b.party, matched := b.matched, status := b.status)
    && (a.party.Some? ==> b.party == a.party)
    && (a.status == Live ==> b.status == Live || b.status == Voided)
    && (a.status == Rejected ==> b.status == Rejected || b.status == Voided)
    && (a.status == Voided ==> b.status == Voided)
  }

  /** A supplier credit is decided once. */
  predicate MemoLater(a: ApMemo, b: ApMemo) {
    b == a.(status := b.status) && (a.status != Pending ==> b == a)
  }

  ghost predicate Later(db: Db, d: Db) {
    && |db.sources| <= |d.sources| && |db.memos| <= |d.memos|
    && (forall s :: 0 <= s < |db.sources| ==> SourceLater(db.sources[s], d.sources[s]))
    && (forall m :: 0 <= m < |db.memos| ==> MemoLater(db.memos[m], d.memos[m]))
  }

  ghost predicate OnlyMatched(before: seq<Account>, after: seq<Account>) {
    |before| == |after| && forall a :: 0 <= a < |before| ==> after[a] == before[a].(matched := after[a].matched)
  }

  lemma {:induction false} FillTouchesNoMemo(db: Db, s: nat, ids: seq<nat>, now: int)
    requires s < |db.sources| && Indexed(db.accounts, ids)
    ensures AutoFrom(db, s, ids, now).memos == db.memos
    ensures OnlyMatched(db.accounts, AutoFrom(db, s, ids, now).accounts)
    decreases ids
  {
    if ids != [] && Remaining(db.sources[s]) > 0 {
      FillTouchesNoMemo(if db.accounts[ids[0]].voided then db else TakeOne(db, s, ids[0], true, now), s, ids[1..], now);
    }
  }

  lemma {:induction false} GatheringTouchesNoMemo(db: Db, r: nat, ids: seq<nat>, now: int)
    requires r < |db.accounts| && SourceIds(db.sources, ids)
    ensures CreditFrom(db, r, ids, now).memos == db.memos
    ensures OnlyMatched(db.accounts, CreditFrom(db, r, ids, now).accounts)
    decreases ids
  {
    if ids != [] && Outstanding(db.accounts[r]) > 0 {
      GatheringTouchesNoMemo(UseCredit(db, r, ids[0], now), r, ids[1..], now);
    }
  }

  lemma RegisterIsLater(db: Db, op: Op)
    requires Wired(db) && op.OpRegister?
    ensures Later(db, Step(db, op))
  {
    var d := AddSource(db, Source(op.kind, op.party, op.currency, op.amount, 0, Live, op.now, 0, 0));
    AutoFromStanding(d, |db.sources|, OpenIds(d, |db.sources|), op.now);
    FillTouchesNoMemo(d, |db.sources|, OpenIds(d, |db.sources|), op.now);
  }

  lemma ClaimIsLater(db: Db, op: Op)
    requires Wired(db) && op.OpClaim?
    ensures Later(db, Step(db, op))
  {
    if op.s < |db.sources| {
      var d := SetParty(db, op.s, op.customer);
      AutoFromStanding(d, op.s, OpenIds(d, op.s), op.now);
      FillTouchesNoMemo(d, op.s, OpenIds(d, op.s), op.now);
    }
  }

  lemma OutboundIsLater(db: Db, op: Op)
    requires Wired(db) && op.OpOutbound?
    ensures Later(db, Step(db, op))
  {
    var d := AddAccount(db, Receivable, op.customer, op.currency, op.amount, op.due, op.now);
    CreditFromStanding(d, |db.accounts|, CreditIds(d, |db.accounts|), op.now);
    GatheringTouchesNoMemo(d, |db.accounts|, CreditIds(d, |db.accounts|), op.now);
  }

  lemma PostMemoIsLater(db: Db, m: nat, now: int)
    requires Inv(db) && Wired(db)
    ensures Later(db, Settle(db, PostMemo(db, m, now)))
  {
    if PostMemo(db, m, now).Ok? {
      var ids, takes := PostMemoIsExact(db, m, now);
    }
  }

  lemma EngineStepIsLater(db: Db, op: Op)
    requires Inv(db) && Wired(db) && OnEngine(op) && !StartsALoop(op)
    ensures Later(db, Step(db, op))
  {}

  lemma SupplierMemoStepIsLater(db: Db, op: Op)
    requires Inv(db) && Wired(db) && OnSupplierMemo(op)
    ensures Later(db, Step(db, op))
  {
    if op.OpPostMemo? { PostMemoIsLater(db, op.m, op.now); }
  }

  lemma CustomerCreditStepIsLater(db: Db, op: Op)
    requires Inv(db) && Wired(db) && !OnEngine(op) && !OnSupplierMemo(op)
    ensures Later(db, Step(db, op))
  {}

  lemma StepIsLater(db: Db, op: Op)
    requires Inv(db) && Wired(db)
    ensures Later(db, Step(db, op))
  {
    if op.OpRegister? {
      RegisterIsLater(db, op);
    } else if op.OpClaim? {
      ClaimIsLater(db, op);
    } else if op.OpOutbound? {
      OutboundIsLater(db, op);
    } else if OnEngine(op) {
      EngineStepIsLater(db, op);
    } else if OnSupplierMemo(op) {
      SupplierMemoStepIsLater(db, op);
    } else {
      CustomerCreditStepIsLater(db, op);
    }
  }

  /** An account keeps its side, party, currency, amount and dates; credits on it only grow. */
  predicate AccountLater(a: Account, b: Account) {
    b == a.(matched := b.matched, credited := b.credited) && a.credited <= b.credited
  }

  ghost predicate AccountsLater(before: seq<Account>, after: seq<Account>) {
    |before| <= |after| && forall a :: 0 <= a < |before| ==> AccountLater(before[a], after[a])
  }

  lemma LoopKeepsAccounts(db: Db, op: Op)
    requires Wired(db) && StartsALoop(op)
    ensures AccountsLater(db.accounts, Step(db, op).accounts)
  {
    match op
    case OpRegister(kind, party, currency, amount, now) =>
      var d := AddSource(db, Source(kind, party, currency, amount, 0, Live, now, 0, 0));
      FillTouchesNoMemo(d, |db.sources|, OpenIds(d, |db.sources|), now);
    case OpClaim(s, customer, now) =>
      if s < |db.sources| {
        var d := SetParty(db, s, customer);
        FillTouchesNoMemo(d, s, OpenIds(d, s), now);
      }
    case OpOutbound(customer, currency, amount, due, now) =>
      var d := AddAccount(db, Receivable, customer, currency, amount, due, now);
      GatheringTouchesNoMemo(d, |db.accounts|, CreditIds(d, |db.accounts|), now);
  }

  lemma PostMemoKeepsAccounts(db: Db, m: nat, now: int)
    requires Inv(db) && Wired(db)
    ensures AccountsLater(db.accounts, Settle(db, PostMemo(db, m, now)).accounts)
  {
    if PostMemo(db, m, now).Ok? {
      var ids, takes := PostMemoIsExact(db, m, now);
      assert MemoOk(db, m);
    }
  }

  lemma OtherStepKeepsAccounts(db: Db, op: Op)
    requires Inv(db) && Wired(db) && !StartsALoop(op) && !op.OpPostMemo?
    ensures AccountsLater(db.accounts, Step(db, op).accounts)
  {}

  lemma StepKeepsAccounts(db: Db, op: Op)
    requires Inv(db) && Wired(db)
    ensures AccountsLater(db.accounts, Step(db, op).accounts)
  {
    if StartsALoop(op) {
      LoopKeepsAccounts(db, op);
    } else if op.OpPostMemo? {
      PostMemoKeepsAccounts(db, op.m, op.now);
    } else {
      OtherStepKeepsAccounts(db, op);
    }
  }

  predicate SameCredit(a: ApMemo, b: ApMemo) { b == a.(status := b.status) }

  ghost predicate KnownCredit(memos: seq<ApMemo>, memo: ApMemo) {
    exists b :: 0 <= b < |memos| && SameCredit(memos[b], memo)
  }

  /** Every supplier credit after a step is, but for its status, one from before: only CreateMemo makes new ones. */
  ghost predicate MemosFrom(before: seq<ApMemo>, after: seq<ApMemo>) {
    forall m :: 0 <= m < |after| ==> KnownCredit(before, after[m])
  }

  lemma SameMemos(memos: seq<ApMemo>)
    ensures MemosFrom(memos, memos)
  {
    forall m | 0 <= m < |memos| ensures KnownCredit(memos, memos[m]) {
      assert SameCredit(memos[m], memos[m]);
    }
  }

  lemma LoopMakesNoMemo(db: Db, op: Op)
    requires Wired(db) && StartsALoop(op)
    ensures Step(db, op).memos == db.memos
  {
    match op
    case OpRegister(kind, party, currency, amount, now) =>
      var d := AddSource(db, Source(kind, party, currency, amount, 0, Live, now, 0, 0));
      FillTouchesNoMemo(d, |db.sources|, OpenIds(d, |db.sources|), now);
    case OpClaim(s, customer, now) =>
      if s < |db.sources| {
        var d := SetParty(db, s, customer);
        FillTouchesNoMemo(d, s, OpenIds(d, s), now);
      }
    case OpOutbound(customer, currency, amount, due, now) =>
      var d := AddAccount(db, Receivable, customer, currency, amount, due, now);
      GatheringTouchesNoMemo(d, |db.accounts|, CreditIds(d, |db.accounts|), now);
  }

  lemma MemoStepMakesMemosFrom(db: Db, op: Op)
    requires Inv(db) && Wired(db) && OnSupplierMemo(op) && !op.OpCreateMemo?
    ensures MemosFrom(db.memos, Step(db, op).memos)
  {
    var n := Step(db, op).memos;
    if op.OpPostMemo? && PostMemo(db, op.m, op.now).Ok? { var ids, takes := PostMemoIsExact(db, op.m, op.now); }
    forall m | 0 <= m < |n| ensures KnownCredit(db.memos, n[m]) {
      assert SameCredit(db.memos[if m < |db.memos| then m else op.m], n[m]);
    }
  }

  lemma StepMakesMemosFrom(db: Db, op: Op)
    requires Inv(db) && Wired(db) && !op.OpCreateMemo?
    ensures MemosFrom(db.memos, Step(db, op).memos)
  {
    SameMemos(db.memos);
    if StartsALoop(op) {
      LoopMakesNoMemo(db, op);
    } else if OnSupplierMemo(op) {
      MemoStepMakesMemosFrom(db, op);
    }
  }

  lemma {:induction false} AccountsOnlyMoveForward(db: Db, ops: seq<Op>)
    requires Inv(db)
    ensures AccountsLater(db.accounts, Run(db, ops).accounts)
    decreases ops
  {
    if ops != [] {
      InvIsWired(db);
      StepKeepsInv(db, ops[0]);
      StepKeepsAccounts(db, ops[0]);
      AccountsOnlyMoveForward(Step(db, ops[0]), ops[1..]);
    }
  }

  lemma {:induction false} RowsOnlyMoveForward(db: Db, ops: seq<Op>)
    requires Inv(db)
    ensures Later(db, Run(db, ops))
    decreases ops
  {
    if ops != [] {
      InvIsWired(db);
      StepKeepsInv(db, ops[0]);
      StepIsLater(db, ops[0]);
      RowsOnlyMoveForward(Step(db, ops[0]), ops[1..]);
    }
  }

  lemma LoopKeepsCreditStatus(db: Db, op: Op, s: nat)
    requires Inv(db) && Wired(db) && StartsALoop(op) && IsCredit(db, s)
    ensures s < |Step(db, op).sources| && Step(db, op).sources[s].status == db.sources[s].status
  {
    match op
    case OpRegister(kind, party, currency, amount, now) =>
      var d := AddSource(db, Source(kind, party, currency, amount, 0, Live, now, 0, 0));
      AutoFromStanding(d, |db.sources|, OpenIds(d, |db.sources|), now);
    case OpClaim(x, customer, now) =>
      if x < |db.sources| {
        var d := SetParty(db, x, customer);
        AutoFromStanding(d, x, OpenIds(d, x), now);
      }
    case OpOutbound(customer, currency, amount, due, now) =>
      var d := AddAccount(db, Receivable, customer, currency, amount, due, now);
      CreditFromStanding(d, |db.accounts|, CreditIds(d, |db.accounts|), now);
  }

  lemma EngineKeepsCreditStatus(db: Db, op: Op, s: nat)
    requires Inv(db) && Wired(db) && OnEngine(op) && IsCredit(db, s)
    ensures s < |Step(db, op).sources| && Step(db, op).sources[s].status == db.sources[s].status
  {
    if StartsALoop(op) { LoopKeepsCreditStatus(db, op, s); }
  }

  lemma MemosKeepCreditStatus(db: Db, op: Op, s: nat)
    requires Inv(db) && Wired(db) && OnSupplierMemo(op) && IsCredit(db, s)
    ensures s < |Step(db, op).sources| && Step(db, op).sources[s].status == db.sources[s].status
  {
    if op.OpPostMemo? && PostMemo(db, op.m, op.now).Ok? { var ids, takes := PostMemoIsExact(db, op.m, op.now); }
  }

  predicate PostsByAnother(db: Db, op: Op, s: nat)
    requires s < |db.sources|
  {
    && op.OpPostCredit? && op.s == s && op.ready && db.sources[s].status == Pending
    && op.actor != db.sources[s].createdBy
  }

  lemma CreditStepsPost(db: Db, op: Op, s: nat)
    requires Wired(db) && !OnEngine(op) && !OnSupplierMemo(op) && IsCredit(db, s) && db.sources[s].status != Live
    ensures s < |Step(db, op).sources|
    ensures Step(db, op).sources[s].status == Live <==> PostsByAnother(db, op, s)
  {}

  /** Money enters the ledger as a credit only by the hand of a second person: the one step that makes a
      credit live is a posting by someone other than its maker. */
  lemma OnlyAnotherPersonPosts(db: Db, op: Op, s: nat)
    requires Inv(db) && Wired(db) && IsCredit(db, s) && db.sources[s].status != Live
    ensures s < |Step(db, op).sources|
    ensures Step(db, op).sources[s].status == Live <==>
              && op.OpPostCredit? && op.s == s && op.ready && db.sources[s].status == Pending
              && op.actor != db.sources[s].createdBy
  {
    if OnEngine(op) {
      EngineKeepsCreditStatus(db, op, s);
    } else if OnSupplierMemo(op) {
      MemosKeepCreditStatus(db, op, s);
    } else {
      CreditStepsPost(db, op, s);
    }
  }
}
