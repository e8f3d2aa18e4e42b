/**
 The services as they run: one object whose rows the methods update in place, write by
 write. Each method is proved against the function that specifies it, so the ledger after
 a call is the ledger after that step; a raised error leaves the rows as they were.
 */
module LedgerService {
  import opened Base
  import opened LedgerRows
  import opened Engine
  import opened ApCredit
  import opened CustomerCredit
  import opened LedgerRuns
  import opened LedgerEntries

  /** From here on the release loop comes to `goal`. */
  ghost predicate Heads(db: Db, locked: set<nat>, ids: seq<nat>, left: int, now: int, goal: Result<Db, PostError>) {
    Linked(db, ids) && ReleaseFrom(db, locked, ids, left, now) == goal
  }

  /** One turn of the release loop. */
  lemma ReleaseTurn(db: Db, locked: set<nat>, ids: seq<nat>, i: nat, left: int, now: int, goal: Result<Db, PostError>)
    requires i < |ids| && left > 0 && Heads(db, locked, ids[i..], left, now, goal)
    ensures ids[i] < |db.allocs|
    ensures var row := db.allocs[ids[i]];
            && row.source < |db.sources| && row.account < |db.accounts|
            && (row.source !in locked ==> goal == Err(PaymentsChanged))
            && (row.source in locked ==>
                  Heads(ReleaseOne(db, ids[i], Min(left, row.amount), now), locked, ids[i + 1..],
                        left - Min(left, row.amount), now, goal))
  {
    var rest := ids[i..];
    assert rest[0] == ids[i] && rest[1..] == ids[i + 1..];
    var d := ReleaseOne(db, rest[0], Min(left, db.allocs[rest[0]].amount), now);
    forall k | 0 <= k < |rest| - 1
      ensures rest[1..][k] == rest[k + 1] && d.allocs[rest[k + 1]] == db.allocs[rest[k + 1]]
    {}
  }

  /** The release loop stops with nothing left to free, or with no row left to free it from. */
  lemma ReleaseStops(db: Db, locked: set<nat>, ids: seq<nat>, i: nat, left: int, now: int, goal: Result<Db, PostError>)
    requires i <= |ids| && (i == |ids| || left <= 0) && Heads(db, locked, ids[i..], left, now, goal)
    ensures goal == if left > 0 then Err(MissingAllocation) else Ok(db)
  {}

  /** One turn of the loop over posted credits. */
  lemma CreditTurn(db: Db, r: nat, ids: seq<nat>, i: nat, now: int)
    requires r < |db.accounts| && i < |ids| && SourceIds(db.sources, ids[i..]) && Outstanding(db.accounts[r]) > 0
    ensures ids[i] < |db.sources|
    ensures SourceIds(UseCredit(db, r, ids[i], now).sources, ids[i + 1..])
    ensures CreditFrom(db, r, ids[i..], now) == CreditFrom(UseCredit(db, r, ids[i], now), r, ids[i + 1..], now)
  {
    assert ids[i..][0] == ids[i] && ids[i..][1..] == ids[i + 1..];
  }

  /** A posting, refused or not, leaves a lawful ledger. */
  lemma PostingIsLawful(db: Db, m: nat, now: int)
    requires Lawful(db) && Wired(db)
    ensures Step(db, OpPostMemo(m, now)) == Settle(db, PostMemo(db, m, now))
    ensures PostMemo(db, m, now).Ok? ==> Lawful(PostMemo(db, m, now).value) && Wired(PostMemo(db, m, now).value)
  {
    StepKeepsInv(db, OpPostMemo(m, now));
    StepKeepsOneOpenCredit(db, OpPostMemo(m, now));
    InvIsWired(Step(db, OpPostMemo(m, now)));
  }

  class Ledger {
    var sources: seq<Source>
    var accounts: seq<Account>
    var allocs: seq<Alloc>
    var memos: seq<ApMemo>

    function Contents(): Db
      reads this
    {
      Db(sources, accounts, allocs, memos)
    }

    ghost predicate Valid()
      reads this
    {
      Lawful(Contents()) && Wired(Contents())
    }

    constructor ()
      ensures Valid() && Contents() == EMPTY
    {
      sources, accounts, allocs, memos := [], [], [], [];
    }

    // ---------- The engine ----------

    /** Adds the row and raises both running totals, unless there is nothing to take. */
    method MatchOne(s: nat, a: nat, auto: bool, now: int) returns (row: Option<nat>)
      requires s < |sources| && a < |accounts|
      modifies this
      ensures Contents() == TakeOne(old(Contents()), s, a, auto, now)
      ensures row == if Min(Remaining(old(sources)[s]), Outstanding(old(accounts)[a])) <= 0 then None
                     else Some(old(|allocs|))
    {
      var take := Min(Remaining(sources[s]), Outstanding(accounts[a]));
      if take <= 0 {
        return None;
      }
      row := Some(|allocs|);
      allocs := allocs + [EngineRow(s, a, take, auto, now)];
      sources := sources[s := sources[s].(matched := sources[s].matched + take)];
      accounts := accounts[a := accounts[a].(matched := accounts[a].matched + take)];
    }

    /** The automatic allocation: walk the open accounts by age until the source is used up. */
    method MatchOldest(s: nat, now: int)
      requires s < |sources|
      modifies this
      ensures Contents() == AutoAllocate(old(Contents()), s, now)
    {
      if sources[s].party.None? || Remaining(sources[s]) <= 0 {
        return;
      }
      var ids := OpenIds(Contents(), s);
      var i := 0;
      while i < |ids| && Remaining(sources[s]) > 0
        invariant 0 <= i <= |ids| && s < |sources| && |accounts| == old(|accounts|)
        invariant AutoFrom(Contents(), s, ids[i..], now) == AutoAllocate(old(Contents()), s, now)
      {
        assert ids[i..][0] == ids[i] && ids[i..][1..] == ids[i + 1..];
        if !accounts[ids[i]].voided {
          var row := MatchOne(s, ids[i], true, now);
        }
        i := i + 1;
      }
    }

    method RegisterSource(kind: Kind, party: Option<nat>, currency: string, amount: int, now: int)
      returns (r: Result<nat, Engine.Error>)
      requires Valid()
      modifies this
      ensures Valid() && Contents() == Step(old(Contents()), OpRegister(kind, party, currency, amount, now))
      ensures r.Ok? <==> amount > 0 && (kind == Receipt || (kind == Payment && party.Some?))
      ensures r.Ok? ==>
                && r.value == old(|sources|) && r.value < |sources|
                && sources[r.value] == Source(kind, party, currency, amount, sources[r.value].matched, Live, now, 0, 0)
                && sources[r.value].matched ==
                     (if party.None? then 0
                      else Min(amount, Owed(old(accounts), if kind == Payment then Payable else Receivable, party.value, currency)))
    {
      RegisterIsExact(Contents(), kind, party, currency, amount, now);
      StepKeepsInv(Contents(), OpRegister(kind, party, currency, amount, now));
      StepKeepsOneOpenCredit(Contents(), OpRegister(kind, party, currency, amount, now));
      if kind == CreditMemo || amount <= 0 || (kind == Payment && party.None?) {
        return Err(SourceInvalid);
      }
      var s := |sources|;
      sources := sources + [Source(kind, party, currency, amount, 0, Live, now, 0, 0)];
      AutoFromStanding(Contents(), s, OpenIds(Contents(), s), now);
      if party.Some? {
        MatchOldest(s, now);
      }
      InvIsWired(Contents());
      r := Ok(s);
    }

    method ClaimReceipt(s: nat, customer: nat, now: int) returns (r: Result<(), Engine.Error>)
      requires Valid()
      modifies this
      ensures Valid() && Contents() == Step(old(Contents()), OpClaim(s, customer, now))
      ensures r.Err? ==> Claim(old(Contents()), s, customer, now) == Err(r.error)
      ensures r.Ok? ==> Claim(old(Contents()), s, customer, now) == Ok(Contents())
    {
      StepKeepsInv(Contents(), OpClaim(s, customer, now));
      StepKeepsOneOpenCredit(Contents(), OpClaim(s, customer, now));
      if !IsEngineSource(Contents(), Receipt, s) {
        return Err(NotFound);
      }
      if sources[s].status == Voided {
        return Err(SourceVoided);
      }
      if sources[s].party.Some? {
        return Err(NotUnclaimed);
      }
      sources := sources[s := sources[s].(party := Some(customer))];
      MatchOldest(s, now);
      InvIsWired(Contents());
      r := Ok(());
    }

    method VoidLive(kind: Kind, s: nat) returns (r: Result<(), Engine.Error>)
      requires Valid()
      modifies this
      ensures Valid() && Contents() == Step(old(Contents()), OpVoid(kind, s))
      ensures r.Err? ==> VoidSource(old(Contents()), kind, s) == Err(r.error)
      ensures r.Ok? ==> VoidSource(old(Contents()), kind, s) == Ok(Contents())
    {
      StepKeepsInv(Contents(), OpVoid(kind, s));
      StepKeepsOneOpenCredit(Contents(), OpVoid(kind, s));
      if !IsEngineSource(Contents(), kind, s) {
        return Err(NotFound);
      }
      if sources[s].status == Voided {
        return Err(SourceVoided);
      }
      var active := AnyActive(s);
      if active {
        return Err(HasActiveAllocations);
      }
      sources := sources[s := sources[s].(status := Voided)];
      InvIsWired(Contents());
      r := Ok(());
    }

    /** has_active_allocations, as a scan. */
    method AnyActive(s: nat) returns (found: bool)
      ensures found == HasActive(Contents(), s)
    {
      for i := 0 to |allocs|
        invariant forall k :: 0 <= k < i ==> allocs[k].source != s || allocs[k].reversed
      {
        if allocs[i].source == s && !allocs[i].reversed {
          return true;
        }
      }
      found := false;
    }

    method MatchManually(kind: Kind, s: nat, a: nat, now: int) returns (r: Result<nat, Engine.Error>)
      requires Valid()
      modifies this
      ensures Valid() && Contents() == Step(old(Contents()), OpManual(kind, s, a, now))
      ensures r.Err? ==> ManualAllocate(old(Contents()), kind, s, a, now) == Err(r.error)
      ensures r.Ok? ==> ManualAllocate(old(Contents()), kind, s, a, now) == Ok(Contents()) && r.value == old(|allocs|)
    {
      StepKeepsInv(Contents(), OpManual(kind, s, a, now));
      StepKeepsOneOpenCredit(Contents(), OpManual(kind, s, a, now));
      var guard := ManualGuard(Contents(), kind, s, a);
      if guard.Some? {
        return Err(guard.value);
      }
      var row := MatchOne(s, a, false, now);
      InvIsWired(Contents());
      r := Ok(|allocs| - 1);
    }

    method ReverseRow(kind: Kind, i: nat, reason: string) returns (r: Result<(), Engine.Error>)
      requires Valid()
      modifies this
      ensures Valid() && Contents() == Step(old(Contents()), OpReverse(kind, i, reason))
      ensures r.Err? ==> Reverse(old(Contents()), kind, i, reason) == Err(r.error)
      ensures r.Ok? ==> Reverse(old(Contents()), kind, i, reason) == Ok(Contents())
    {
      StepKeepsInv(Contents(), OpReverse(kind, i, reason));
      StepKeepsOneOpenCredit(Contents(), OpReverse(kind, i, reason));
      if !ReversibleRow(Contents(), kind, i) {
        return Err(ReverseNotFound);
      }
      Undo(i, None, reason);
      InvIsWired(Contents());
      r := Ok(());
    }

    /** Soft-deletes one row and gives its amount back to both sides. */
    method Undo(i: nat, undoKey: Option<Key>, reason: string)
      requires i < |allocs| && allocs[i].source < |sources| && allocs[i].account < |accounts|
      modifies this
      ensures Contents() == Detach(old(Contents()), i, undoKey, reason)
    {
      var row := allocs[i];
      allocs := allocs[i := row.(reversed := true, undoKey := undoKey, undoReason := reason)];
      sources := sources[row.source := sources[row.source].(matched := sources[row.source].matched - row.amount)];
      accounts := accounts[row.account := accounts[row.account].(matched := accounts[row.account].matched - row.amount)];
    }

    // ---------- Supplier credit memos ----------

    /**
     Frees the paid money that a credit of `amount` makes superfluous. An error may leave
     rows half done; the caller rolls back.
     */
    method ReleasePaid(payable: nat, amount: int, now: int) returns (error: Option<PostError>)
      requires Wired(Contents()) && payable < |accounts|
      modifies this
      ensures error.None? ==> ApCredit.Release(old(Contents()), payable, amount, now) == Ok(Contents())
      ensures error.Some? ==> ApCredit.Release(old(Contents()), payable, amount, now) == Err(error.value)
    {
      var debt := accounts[payable].original - accounts[payable].credited - amount;
      if debt < 0 {
        return Some(ExceedsOriginal);
      }
      if accounts[payable].matched - debt <= 0 {
        return None;
      }
      var ids := PaidRows(allocs, payable);
      error := ReleaseNewest(LockedPayments(allocs, payable), ids, accounts[payable].matched - debt, now);
    }

    /** The release loop: reverse the given rows in turn until enough is free. */
    method ReleaseNewest(locked: set<nat>, ids: seq<nat>, amount: int, now: int) returns (error: Option<PostError>)
      requires Linked(Contents(), ids)
      modifies this
      ensures error.None? ==> ReleaseFrom(old(Contents()), locked, ids, amount, now) == Ok(Contents())
      ensures error.Some? ==> ReleaseFrom(old(Contents()), locked, ids, amount, now) == Err(error.value)
    {
      var left, i := amount, 0;
      ghost var goal := ReleaseFrom(Contents(), locked, ids, amount, now);
      assert ids[0..] == ids;
      while i < |ids| && left > 0
        invariant 0 <= i <= |ids| && Heads(Contents(), locked, ids[i..], left, now, goal)
      {
        ReleaseTurn(Contents(), locked, ids, i, left, now, goal);
        var row := allocs[ids[i]];
        if row.source !in locked {
          return Some(PaymentsChanged);
        }
        var release := Min(left, row.amount);
        ReleaseRow(ids[i], release, now);
        left := left - release;
        i := i + 1;
      }
      ReleaseStops(Contents(), locked, ids, i, left, now, goal);
      error := if left > 0 then Some(MissingAllocation) else None;
    }

    /** One turn: reverse the row, flush, then re-attach what is kept. */
    method ReleaseRow(k: nat, release: int, now: int)
      requires k < |allocs| && allocs[k].source < |sources| && allocs[k].account < |accounts|
      modifies this
      ensures Contents() == ReleaseOne(old(Contents()), k, release, now)
    {
      var row := allocs[k];
      Undo(k, None, RELEASED);
      if row.amount - release > 0 {
        var keep := row.amount - release;
        allocs := allocs + [KeptRow(row, keep, now)];
        sources := sources[row.source := sources[row.source].(matched := sources[row.source].matched + keep)];
        accounts := accounts[row.account := accounts[row.account].(matched := accounts[row.account].matched + keep)];
      }
    }

    method Rollback(saved: Db)
      modifies this
      ensures Contents() == saved
    {
      sources, accounts, allocs, memos := saved.sources, saved.accounts, saved.allocs, saved.memos;
    }

    method PostSupplierCredit(m: nat, now: int) returns (r: Result<(), PostError>)
      requires Valid()
      modifies this
      ensures Valid() && Contents() == Step(old(Contents()), OpPostMemo(m, now))
      ensures r.Err? ==> PostMemo(old(Contents()), m, now) == Err(r.error)
      ensures r.Ok? ==> PostMemo(old(Contents()), m, now) == Ok(Contents())
    {
      PostingIsLawful(Contents(), m, now);
      if m >= |memos| {
        return Err(MemoNotFound);
      }
      var memo := memos[m];
      if memo.status != Pending {
        return Err(NotPending);
      }
      if !ActivePayable(Contents(), memo.payable) {
        return Err(PayableInactive);
      }
      var saved := Contents();
      var error := ReleasePaid(memo.payable, memo.amount, now);
      if error.Some? {
        Rollback(saved);
        return Err(error.value);
      }
      if memo.amount > Outstanding(accounts[memo.payable]) {
        Rollback(saved);
        return Err(ExceedsOutstanding);
      }
      CreditPayable(m);
      r := Ok(());
    }

    /** The memo goes live and its payable is credited. */
    method CreditPayable(m: nat)
      requires m < |memos| && memos[m].payable < |accounts|
      modifies this`memos, this`accounts
      ensures Contents() == Credit(old(Contents()), m)
    {
      var memo := memos[m];
      memos := memos[m := memo.(status := Live)];
      accounts := accounts[memo.payable :=
        accounts[memo.payable].(credited := accounts[memo.payable].credited + memo.amount)];
    }

    // ---------- Customer credits ----------

    /** idempotency lookup, newest row first. */
    method FindKey(key: Key) returns (row: Option<nat>)
      ensures row == KeyRow(allocs, key)
    {
      var i := |allocs|;
      assert allocs[..i] == allocs;
      while i > 0
        invariant 0 <= i <= |allocs|
        invariant KeyRow(allocs[..i], key) == KeyRow(allocs, key)
      {
        assert allocs[..i][..i - 1] == allocs[..i - 1];
        if allocs[i - 1].key == Some(key) {
          return Some(i - 1);
        }
        i := i - 1;
      }
      row := None;
    }

    method AllocateCredit(m: nat, r: nat, amount: Option<int>, key: Key, now: int) returns (res: Result<nat, Engine.Error>)
      requires Valid()
      modifies this
      ensures Valid() && Contents() == Step(old(Contents()), OpAllocateCredit(m, r, amount, key, now))
      ensures res.Err? ==> CreditAllocate(old(Contents()), m, r, amount, key, now) == Err(res.error)
      ensures res.Ok? ==> CreditAllocate(old(Contents()), m, r, amount, key, now) == Ok((Contents(), res.value))
    {
      StepKeepsInv(Contents(), OpAllocateCredit(m, r, amount, key, now));
      StepKeepsOneOpenCredit(Contents(), OpAllocateCredit(m, r, amount, key, now));
      var existing := FindKey(key);
      if existing.Some? {
        if SameRequest(allocs[existing.value], m, r, amount) {
          return Ok(existing.value);
        }
        return Err(IdempotencyConflict);
      }
      var guard := CreditGuard(Contents(), m, r);
      if guard.Some? {
        return Err(guard.value);
      }
      var take := Min(Remaining(sources[m]), Outstanding(accounts[r]));
      if amount.Some? {
        if amount.value > Remaining(sources[m]) {
          return Err(ExceedsSource);
        }
        if amount.value > Outstanding(accounts[r]) {
          return Err(ExceedsAccount);
        }
        take := amount.value;
      }
      if take <= 0 {
        return Err(ExceedsSource);
      }
      AddCreditRow(m, r, take, false, now, key);
      InvIsWired(Contents());
      res := Ok(|allocs| - 1);
    }

    method AddCreditRow(m: nat, r: nat, take: int, auto: bool, now: int, key: Key)
      requires m < |sources| && r < |accounts|
      modifies this
      ensures Contents() == Attach(old(Contents()), CreditRow(m, r, take, auto, now, key))
    {
      allocs := allocs + [CreditRow(m, r, take, auto, now, key)];
      sources := sources[m := sources[m].(matched := sources[m].matched + take)];
      accounts := accounts[r := accounts[r].(matched := accounts[r].matched + take)];
    }

    method ReverseCredit(i: nat, reason: string, key: Key) returns (res: Result<nat, Engine.Error>)
      requires Valid()
      modifies this
      ensures Valid() && Contents() == Step(old(Contents()), OpReverseCredit(i, reason, key))
      ensures res.Err? ==> CreditReverse(old(Contents()), i, reason, key) == Err(res.error)
      ensures res.Ok? ==> CreditReverse(old(Contents()), i, reason, key) == Ok((Contents(), res.value))
    {
      StepKeepsInv(Contents(), OpReverseCredit(i, reason, key));
      StepKeepsOneOpenCredit(Contents(), OpReverseCredit(i, reason, key));
      if reason == "" {
        return Err(SourceInvalid);
      }
      var existing := UndoRow(allocs, key);
      if existing.Some? {
        if existing.value == i && allocs[i].undoReason == reason {
          return Ok(i);
        }
        return Err(IdempotencyConflict);
      }
      if i >= |allocs| || allocs[i].key.None? || allocs[i].reversed {
        return Err(ReverseNotFound);
      }
      Undo(i, Some(key), reason);
      InvIsWired(Contents());
      res := Ok(i);
    }

    /** Use the posted credits of the customer, oldest first, until the receivable is settled. */
    method UseCredits(r: nat, now: int)
      requires r < |accounts|
      modifies this
      ensures Contents() == AutoCredit(old(Contents()), r, now)
    {
      if accounts[r].currency != CNY || Outstanding(accounts[r]) <= 0 || accounts[r].voided {
        return;
      }
      var ids := CreditIds(Contents(), r);
      var i := 0;
      while i < |ids| && Outstanding(accounts[r]) > 0
        invariant 0 <= i <= |ids| && r < |accounts| && |sources| == old(|sources|)
        invariant CreditFrom(Contents(), r, ids[i..], now) == AutoCredit(old(Contents()), r, now)
      {
        CreditTurn(Contents(), r, ids, i, now);
        UseOne(ids[i], r, now);
        i := i + 1;
      }
    }

    /** One turn: a credit that is no longer usable, or whose key is taken, is passed over. */
    method UseOne(m: nat, r: nat, now: int)
      requires m < |sources| && r < |accounts|
      modifies this
      ensures Contents() == UseCredit(old(Contents()), r, m, now)
    {
      if Usable(Contents(), r, m) {
        var existing := FindKey(Auto(m, r));
        if existing.None? {
          AddCreditRow(m, r, Min(Remaining(sources[m]), Outstanding(accounts[r])), true, now, Auto(m, r));
        }
      }
    }

    /** The receivable of a confirmed outbound order, settled from credits where they exist. */
    method AddReceivable(customer: nat, currency: string, amount: int, due: Option<int>, now: int) returns (r: nat)
      requires Valid() && amount >= 0
      modifies this
      ensures Valid() && Contents() == Step(old(Contents()), OpOutbound(customer, currency, amount, due, now))
      ensures r == old(|accounts|) && r < |accounts|
      ensures accounts[r] == Account(Receivable, customer, currency, amount, 0, accounts[r].matched, due, now, false)
      ensures accounts[r].matched ==
                if currency == CNY then Min(amount, Spare(old(Contents()), r, customer, old(|sources|))) else 0
    {
      OutboundIsExact(Contents(), customer, currency, amount, due, now);
      StepKeepsInv(Contents(), OpOutbound(customer, currency, amount, due, now));
      StepKeepsOneOpenCredit(Contents(), OpOutbound(customer, currency, amount, due, now));
      r := |accounts|;
      accounts := accounts + [Account(Receivable, customer, currency, amount, 0, 0, due, now, false)];
      UseCredits(r, now);
      InvIsWired(Contents());
    }
  }
}
