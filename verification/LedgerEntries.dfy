/**
 What enters the ledger, read off its columns: a receipt or payment that is registered or claimed, and
 the account that an inbound or a confirmed outbound order opens.
 */
module LedgerEntries {
  import opened Base
  import opened LedgerRows
  import opened Ordering
  import opened Engine
  import opened ApCredit
  import opened CustomerCredit
  import opened LedgerRuns
  import Fairness

  // ---------- Open debts ----------

  function Debt(a: Account): int { a.original - a.credited - a.matched }

  predicate Owes(a: Account, side: Side, party: nat, currency: string) {
    a.side == side && a.party == party && a.currency == currency && !a.voided && Debt(a) > 0
  }

  /** What the open accounts of one party owe in one currency. */
  function Owed(accounts: seq<Account>, side: Side, party: nat, currency: string): int {
    if accounts == [] then 0
    else
      var last := accounts[|accounts| - 1];
      Owed(accounts[..|accounts| - 1], side, party, currency)
      + if Owes(last, side, party, currency) then Debt(last) else 0
  }

  /** One new row out of one source for each account that gained, for what it gained; no account lost. */
  ghost predicate PaidOut(accounts: seq<Account>, after: seq<Account>, rows: seq<Alloc>, all: seq<Alloc>, s: nat, now: int) {
    && |after| == |accounts| && rows <= all
    && (forall a :: 0 <= a < |accounts| ==> after[a] == accounts[a].(matched := after[a].matched))
    && (forall i :: |rows| <= i < |all| ==>
          && all[i].account < |accounts|
          && var gain := after[all[i].account].matched - accounts[all[i].account].matched;
          gain > 0 && all[i] == Alloc(s, all[i].account, gain, true, now, false, None, None, ""))
    && (forall i, j :: |rows| <= i < j < |all| ==> all[i].account != all[j].account)
    && (forall a :: 0 <= a < |accounts| && after[a] != accounts[a] ==> exists i :: |rows| <= i < |all| && all[i].account == a)
  }

  /** Only open debts of the party are paid, and none before the ones due earlier are settled. */
  ghost predicate EarliestFirst(accounts: seq<Account>, after: seq<Account>, side: Side, party: nat, currency: string) {
    && |after| == |accounts|
    && (forall a :: 0 <= a < |accounts| && after[a] != accounts[a] ==> Owes(accounts[a], side, party, currency))
    && (forall a, b :: 0 <= a < |accounts| && 0 <= b < |accounts| && after[b] != accounts[b] ==>
          (Fairness.DueBefore(accounts, a, b) && Owes(accounts[a], side, party, currency) ==> Debt(after[a]) == 0))
  }

  lemma {:induction false} InsertAddsDemand(accounts: seq<Account>, before: Precedes, id: nat, ids: seq<nat>)
    requires Indexed(accounts, ids) && id < |accounts|
    ensures Indexed(accounts, Insert(before, id, ids))
    ensures Sum(Demands(accounts, Insert(before, id, ids))) == Sum(Demands(accounts, ids)) + Outstanding(accounts[id])
  {
    if ids == [] || before(id, ids[0]) {
      assert ([id] + ids)[1..] == ids;
    } else {
      InsertAddsDemand(accounts, before, id, ids[1..]);
      var rest := Insert(before, id, ids[1..]);
      assert ([ids[0]] + rest)[1..] == rest;
    }
  }

  lemma OpenNext(db: Db, s: nat, n: nat)
    requires s < |db.sources| && 0 < n <= |db.accounts|
    ensures OpenAmong(db, s, n) ==
              if Eligible(db, s, n - 1) then Insert(Aging(db.accounts), n - 1, OpenAmong(db, s, n - 1))
              else OpenAmong(db, s, n - 1)
  {}

  /** What the candidates of a source ask for is what its party owes. */
  lemma {:induction false} DemandsAreOwed(db: Db, s: nat, party: nat, n: nat)
    requires s < |db.sources| && n <= |db.accounts| && db.sources[s].party == Some(party)
    ensures Indexed(db.accounts, OpenAmong(db, s, n))
    ensures Sum(Demands(db.accounts, OpenAmong(db, s, n))) ==
              Owed(db.accounts[..n], SideOf(db.sources[s].kind), party, db.sources[s].currency)
  {
    if n > 0 {
      DemandsAreOwed(db, s, party, n - 1);
      OpenNext(db, s, n);
      assert db.accounts[..n][..n - 1] == db.accounts[..n - 1];
      if Eligible(db, s, n - 1) {
        InsertAddsDemand(db.accounts, Aging(db.accounts), n - 1, OpenAmong(db, s, n - 1));
      }
    }
  }

  function PaidRow(s: nat, a: nat, gain: int, now: int): Alloc { Alloc(s, a, gain, true, now, false, None, None, "") }

  ghost predicate Takes(row: Alloc, s: nat, ids: seq<nat>, takes: seq<int>, now: int)
    requires |takes| == |ids|
  {
    exists k :: 0 <= k < |ids| && takes[k] > 0 && row == PaidRow(s, ids[k], takes[k], now)
  }

  /** The rows of a fill stand for the takes that are not zero, each once. */
  ghost predicate Stand(rows: seq<Alloc>, s: nat, ids: seq<nat>, takes: seq<int>, now: int)
    requires |takes| == |ids|
  {
    && (forall row :: row in rows ==> Takes(row, s, ids, takes, now))
    && (forall k :: 0 <= k < |ids| && takes[k] > 0 ==> PaidRow(s, ids[k], takes[k], now) in rows)
    && (forall i, j :: 0 <= i < j < |rows| ==> rows[i].account != rows[j].account)
  }

  lemma StandsLonger(rest: seq<Alloc>, s: nat, ids: seq<nat>, takes: seq<int>, now: int)
    requires |takes| == |ids| > 0 && Distinct(ids) && Stand(rest, s, ids[1..], takes[1..], now)
    ensures Stand((if takes[0] > 0 then [PaidRow(s, ids[0], takes[0], now)] else []) + rest, s, ids, takes, now)
  {
    var first := if takes[0] > 0 then [PaidRow(s, ids[0], takes[0], now)] else [];
    forall row | row in rest ensures Takes(row, s, ids, takes, now) && row.account != ids[0] {
      var k :| 0 <= k < |ids[1..]| && takes[1..][k] > 0 && row == PaidRow(s, ids[1..][k], takes[1..][k], now);
      assert ids[1..][k] == ids[k + 1] && takes[1..][k] == takes[k + 1];
    }
    forall k | 0 <= k < |ids| && takes[k] > 0 ensures PaidRow(s, ids[k], takes[k], now) in first + rest {
      if k > 0 { assert ids[1..][k - 1] == ids[k] && takes[1..][k - 1] == takes[k]; }
    }
    assert forall j :: 0 <= j < |rest| ==> rest[j] in rest;
  }

  lemma {:induction false} AutoRowsStand(s: nat, ids: seq<nat>, takes: seq<int>, now: int)
    requires |takes| == |ids| && Distinct(ids)
    ensures Stand(AutoRows(s, ids, takes, now), s, ids, takes, now)
  {
    if ids != [] {
      AutoRowsStand(s, ids[1..], takes[1..], now);
      StandsLonger(AutoRows(s, ids[1..], takes[1..], now), s, ids, takes, now);
    }
  }

  ghost predicate Gained(accounts: seq<Account>, after: seq<Account>, ids: seq<nat>, takes: seq<int>)
    requires Indexed(accounts, ids) && |takes| == |ids|
  {
    && |after| == |accounts|
    && (forall k :: 0 <= k < |ids| ==>
          after[ids[k]] == accounts[ids[k]].(matched := accounts[ids[k]].matched + takes[k]))
    && (forall a: nat :: a < |accounts| && a !in ids ==> after[a] == accounts[a])
  }

  lemma StandingRowsPayOut(accounts: seq<Account>, after: seq<Account>, rows: seq<Alloc>, more: seq<Alloc>,
                           s: nat, ids: seq<nat>, takes: seq<int>, now: int)
    requires Indexed(accounts, ids) && |takes| == |ids| && forall k :: 0 <= k < |takes| ==> takes[k] >= 0
    requires Gained(accounts, after, ids, takes) && Stand(more, s, ids, takes, now)
    ensures PaidOut(accounts, after, rows, rows + more, s, now)
  {
    var n, all := |rows|, rows + more;
    forall a | 0 <= a < |accounts|
      ensures after[a] == accounts[a].(matched := after[a].matched)
      ensures after[a] != accounts[a] ==> exists i :: n <= i < |all| && all[i].account == a
    {
      if k :| 0 <= k < |ids| && ids[k] == a {
        if takes[k] > 0 {
          var i :| 0 <= i < |more| && more[i] == PaidRow(s, ids[k], takes[k], now);
          assert all[n + i].account == a;
        }
      }
    }
    forall i | n <= i < |all|
      ensures all[i].account < |accounts|
      ensures var gain := after[all[i].account].matched - accounts[all[i].account].matched;
              gain > 0 && all[i] == Alloc(s, all[i].account, gain, true, now, false, None, None, "")
    {
      assert all[i] == more[i - n] && Takes(more[i - n], s, ids, takes, now);
    }
    assert forall i :: n <= i < |all| ==> all[i] == more[i - n];
  }

  lemma SpreadPaysOut(db: Db, d: Db, s: nat, ids: seq<nat>, takes: seq<int>, now: int)
    requires s < |db.sources| && Indexed(db.accounts, ids) && Distinct(ids) && |takes| == |ids|
    requires Spread(db, d, s, ids, takes, now) && forall k :: 0 <= k < |takes| ==> takes[k] >= 0
    ensures PaidOut(db.accounts, d.accounts, db.allocs, d.allocs, s, now)
  {
    AutoRowsStand(s, ids, takes, now);
    StandingRowsPayOut(db.accounts, d.accounts, db.allocs, AutoRows(s, ids, takes, now), s, ids, takes, now);
  }

  // ---------- Registering and claiming ----------

  /** The fill gives to open debts of the party only, and to the ones due first. */
  lemma DuesInTurn(db: Db, d: Db, s: nat, party: nat, ids: seq<nat>, takes: seq<int>, now: int)
    requires s < |db.sources| && db.sources[s].party == Some(party) && Remaining(db.sources[s]) >= 0
    requires d == AutoAllocate(db, s, now) && ids == OpenIds(db, s)
    requires |takes| == |ids| && Gained(db.accounts, d.accounts, ids, takes)
    ensures EarliestFirst(db.accounts, d.accounts, SideOf(db.sources[s].kind), party, db.sources[s].currency)
  {
    var side, currency := SideOf(db.sources[s].kind), db.sources[s].currency;
    forall a | 0 <= a < |db.accounts| && d.accounts[a] != db.accounts[a]
      ensures Owes(db.accounts[a], side, party, currency) && Eligible(db, s, a)
    {
      assert a in ids;
    }
    forall a, b | 0 <= a < |db.accounts| && 0 <= b < |db.accounts| && d.accounts[b] != db.accounts[b]
                  && Fairness.DueBefore(db.accounts, a, b) && Owes(db.accounts[a], side, party, currency)
      ensures Debt(d.accounts[a]) == 0
    {
      Fairness.DueFirstIsSettledFirst(db, s, now, a, b);
    }
  }

  lemma FreshTotals(db: Db, s: nat, party: nat, now: int) returns (ids: seq<nat>, takes: seq<int>)
    requires s < |db.sources| && db.sources[s].party == Some(party)
    requires db.sources[s].matched == 0 && db.sources[s].amount > 0
    ensures ids == OpenIds(db, s) && |takes| == |ids| && forall k :: 0 <= k < |takes| ==> takes[k] >= 0
    ensures Spread(db, AutoAllocate(db, s, now), s, ids, takes, now)
    ensures Sum(takes) == Min(db.sources[s].amount, Owed(db.accounts, SideOf(db.sources[s].kind), party, db.sources[s].currency))
  {
    ids, takes := AutoAllocateIsGreedy(db, s, now);
    DemandsAreOwed(db, s, party, |db.accounts|);
    assert db.accounts[..|db.accounts|] == db.accounts;
  }

  /** A live source with nothing matched, after the automatic allocation: what it paid, and to whom. */
  lemma FreshSourcePays(db: Db, s: nat, party: nat, now: int)
    requires s < |db.sources| && db.sources[s].party == Some(party)
    requires db.sources[s].matched == 0 && db.sources[s].amount > 0
    ensures
      var d, src := AutoAllocate(db, s, now), db.sources[s];
      var used := Min(src.amount, Owed(db.accounts, SideOf(src.kind), party, src.currency));
      && d.sources == db.sources[s := src.(matched := used)] && d.memos == db.memos
      && PaidOut(db.accounts, d.accounts, db.allocs, d.allocs, s, now)
      && EarliestFirst(db.accounts, d.accounts, SideOf(src.kind), party, src.currency)
  {
    var ids, takes := FreshTotals(db, s, party, now);
    SpreadPaysOut(db, AutoAllocate(db, s, now), s, ids, takes, now);
    DuesInTurn(db, AutoAllocate(db, s, now), s, party, ids, takes, now);
  }

  /** Registration books the receipt or payment it was given, and no other: of its amount, as much is matched as
      its party owes in its currency, to the debts due first; without a party nothing is. */
  lemma RegisterIsExact(db: Db, kind: Kind, party: Option<nat>, currency: string, amount: int, now: int)
    requires Inv(db) && Wired(db)
    ensures
      var d := Step(db, OpRegister(kind, party, currency, amount, now));
      var side := if kind == Payment then Payable else Receivable;
      var used := if party.None? then 0 else Min(amount, Owed(db.accounts, side, party.value, currency));
      if amount > 0 && (kind == Receipt || (kind == Payment && party.Some?)) then
        && d.sources == db.sources + [Source(kind, party, currency, amount, used, Live, now, 0, 0)]
        && d.memos == db.memos
        && (party.None? ==> d.accounts == db.accounts && d.allocs == db.allocs)
        && (party.Some? ==> PaidOut(db.accounts, d.accounts, db.allocs, d.allocs, |db.sources|, now)
                            && EarliestFirst(db.accounts, d.accounts, side, party.value, currency))
      else d == db
  {
    if amount > 0 && party.Some? && kind != CreditMemo {
      FreshSourcePays(db.(sources := db.sources + [Source(kind, party, currency, amount, 0, Live, now, 0, 0)]),
                      |db.sources|, party.value, now);
    }
  }

  /** Claiming does the same for a live receipt that came without a customer, and for no other source. */
  lemma ClaimIsExact(db: Db, s: nat, customer: nat, now: int)
    requires Inv(db) && Wired(db)
    ensures
      var d := Step(db, OpClaim(s, customer, now));
      if s < |db.sources| && db.sources[s].kind == Receipt && db.sources[s].status == Live && db.sources[s].party.None? then
        var src := db.sources[s];
        var used := Min(src.amount, Owed(db.accounts, Receivable, customer, src.currency));
        && d.sources == db.sources[s := src.(party := Some(customer), matched := used)] && d.memos == db.memos
        && PaidOut(db.accounts, d.accounts, db.allocs, d.allocs, s, now)
        && EarliestFirst(db.accounts, d.accounts, Receivable, customer, src.currency)
      else d == db
  {
    if s < |db.sources| {
      assert SourceOk(db, s);
      ActiveIffMatched(db, s);
      if db.sources[s].kind == Receipt && db.sources[s].status == Live && db.sources[s].party.None? {
        FreshSourcePays(db.(sources := db.sources[s := db.sources[s].(party := Some(customer))]), s, customer, now);
      }
    }
  }

  // ---------- Accounts ----------

  /** A posted credit of the customer that receivable r can still take from: its key for r is free. */
  predicate Spendable(db: Db, r: nat, customer: nat, m: nat) {
    && m < |db.sources|
    && db.sources[m].kind == CreditMemo && db.sources[m].status == Live && db.sources[m].party == Some(customer)
    && db.sources[m].amount - db.sources[m].matched > 0 && !KeyUsed(db, Auto(m, r))
  }

  /** What those among the first n sources have left. */
  function Spare(db: Db, r: nat, customer: nat, n: nat): int
    requires n <= |db.sources|
  {
    if n == 0 then 0
    else Spare(db, r, customer, n - 1)
         + if Spendable(db, r, customer, n - 1) then db.sources[n - 1].amount - db.sources[n - 1].matched else 0
  }

  /** One new row into one receivable for each credit that gave, for what it gave, under its automatic key. */
  ghost predicate PaidIn(sources: seq<Source>, after: seq<Source>, rows: seq<Alloc>, all: seq<Alloc>, r: nat, now: int) {
    && |after| == |sources| && rows <= all
    && (forall m :: 0 <= m < |sources| ==> after[m] == sources[m].(matched := after[m].matched))
    && (forall i :: |rows| <= i < |all| ==>
          && all[i].source < |sources|
          && var gift := after[all[i].source].matched - sources[all[i].source].matched;
          gift > 0 && all[i] == Alloc(all[i].source, r, gift, true, now, false, Some(Auto(all[i].source, r)), None, ""))
    && (forall i, j :: |rows| <= i < j < |all| ==> all[i].source != all[j].source)
    && (forall m :: 0 <= m < |sources| && after[m] != sources[m] ==> exists i :: |rows| <= i < |all| && all[i].source == m)
  }

  ghost predicate OldestFirst(db: Db, after: seq<Source>, r: nat, customer: nat) {
    && |after| == |db.sources|
    && (forall m :: 0 <= m < |after| && after[m] != db.sources[m] ==> Spendable(db, r, customer, m))
    && (forall m, n :: 0 <= m < |after| && 0 <= n < |after| && after[n] != db.sources[n] ==>
          (Fairness.IssuedBefore(db.sources, m, n) && Spendable(db, r, customer, m) ==> after[m].amount == after[m].matched))
  }

  lemma {:induction false} InsertAddsOffer(db: Db, r: nat, before: Precedes, id: nat, ids: seq<nat>)
    requires SourceIds(db.sources, ids) && id < |db.sources|
    ensures SourceIds(db.sources, Insert(before, id, ids))
    ensures Sum(Offers(db, r, Insert(before, id, ids))) == Sum(Offers(db, r, ids)) + Offer(db, r, id)
  {
    if ids == [] || before(id, ids[0]) {
      assert ([id] + ids)[1..] == ids;
    } else {
      InsertAddsOffer(db, r, before, id, ids[1..]);
      var rest := Insert(before, id, ids[1..]);
      assert ([ids[0]] + rest)[1..] == rest;
    }
  }

  lemma CreditsNext(db: Db, r: nat, n: nat)
    requires r < |db.accounts| && 0 < n <= |db.sources|
    ensures CreditsAmong(db, r, n) ==
              if Usable(db, r, n - 1) then Insert(FirstPosted(db.sources), n - 1, CreditsAmong(db, r, n - 1))
              else CreditsAmong(db, r, n - 1)
  {}

  lemma {:induction false} OffersAreSpare(db: Db, r: nat, n: nat)
    requires r < |db.accounts| && n <= |db.sources| && db.accounts[r].currency == CNY
    requires forall m :: 0 <= m < |db.sources| && db.sources[m].kind == CreditMemo ==> db.sources[m].currency == CNY
    ensures SourceIds(db.sources, CreditsAmong(db, r, n))
    ensures Sum(Offers(db, r, CreditsAmong(db, r, n))) == Spare(db, r, db.accounts[r].party, n)
  {
    if n > 0 {
      OffersAreSpare(db, r, n - 1);
      CreditsNext(db, r, n);
      if Usable(db, r, n - 1) {
        InsertAddsOffer(db, r, FirstPosted(db.sources), n - 1, CreditsAmong(db, r, n - 1));
      }
    }
  }

  function GiftRow(m: nat, r: nat, gift: int, now: int): Alloc {
    Alloc(m, r, gift, true, now, false, Some(Auto(m, r)), None, "")
  }

  ghost predicate Gives(row: Alloc, r: nat, ids: seq<nat>, takes: seq<int>, now: int)
    requires |takes| == |ids|
  {
    exists k :: 0 <= k < |ids| && takes[k] > 0 && row == GiftRow(ids[k], r, takes[k], now)
  }

  ghost predicate Gifts(rows: seq<Alloc>, r: nat, ids: seq<nat>, takes: seq<int>, now: int)
    requires |takes| == |ids|
  {
    && (forall row :: row in rows ==> Gives(row, r, ids, takes, now))
    && (forall k :: 0 <= k < |ids| && takes[k] > 0 ==> GiftRow(ids[k], r, takes[k], now) in rows)
    && (forall i, j :: 0 <= i < j < |rows| ==> rows[i].source != rows[j].source)
  }

  lemma OneMoreGift(rest: seq<Alloc>, r: nat, ids: seq<nat>, takes: seq<int>, now: int)
    requires |takes| == |ids| > 0 && Distinct(ids) && Gifts(rest, r, ids[1..], takes[1..], now)
    ensures Gifts((if takes[0] > 0 then [GiftRow(ids[0], r, takes[0], now)] else []) + rest, r, ids, takes, now)
  {
    var first := if takes[0] > 0 then [GiftRow(ids[0], r, takes[0], now)] else [];
    forall row | row in rest ensures Gives(row, r, ids, takes, now) && row.source != ids[0] {
      var k :| 0 <= k < |ids[1..]| && takes[1..][k] > 0 && row == GiftRow(ids[1..][k], r, takes[1..][k], now);
      assert ids[1..][k] == ids[k + 1] && takes[1..][k] == takes[k + 1];
    }
    forall k | 0 <= k < |ids| && takes[k] > 0 ensures GiftRow(ids[k], r, takes[k], now) in first + rest {
      if k > 0 { assert ids[1..][k - 1] == ids[k] && takes[1..][k - 1] == takes[k]; }
    }
    assert forall j :: 0 <= j < |rest| ==> rest[j] in rest;
  }

  lemma {:induction false} CreditRowsAreGifts(r: nat, ids: seq<nat>, takes: seq<int>, now: int)
    requires |takes| == |ids| && Distinct(ids)
    ensures Gifts(CreditRows(r, ids, takes, now), r, ids, takes, now)
  {
    if ids != [] {
      CreditRowsAreGifts(r, ids[1..], takes[1..], now);
      OneMoreGift(CreditRows(r, ids[1..], takes[1..], now), r, ids, takes, now);
    }
  }

  ghost predicate Gave(sources: seq<Source>, after: seq<Source>, ids: seq<nat>, takes: seq<int>)
    requires SourceIds(sources, ids) && |takes| == |ids|
  {
    && |after| == |sources|
    && (forall k :: 0 <= k < |ids| ==> after[ids[k]] == sources[ids[k]].(matched := sources[ids[k]].matched + takes[k]))
    && (forall m: nat :: m < |sources| && m !in ids ==> after[m] == sources[m])
  }

  lemma GiftsArePaidIn(sources: seq<Source>, after: seq<Source>, rows: seq<Alloc>, more: seq<Alloc>,
                       r: nat, ids: seq<nat>, takes: seq<int>, now: int)
    requires SourceIds(sources, ids) && |takes| == |ids| && forall k :: 0 <= k < |takes| ==> takes[k] >= 0
    requires Gave(sources, after, ids, takes) && Gifts(more, r, ids, takes, now)
    ensures PaidIn(sources, after, rows, rows + more, r, now)
  {
    var n, all := |rows|, rows + more;
    forall m | 0 <= m < |sources|
      ensures after[m] == sources[m].(matched := after[m].matched)
      ensures after[m] != sources[m] ==> exists i :: n <= i < |all| && all[i].source == m
    {
      if k :| 0 <= k < |ids| && ids[k] == m {
        if takes[k] > 0 {
          var i :| 0 <= i < |more| && more[i] == GiftRow(ids[k], r, takes[k], now);
          assert all[n + i].source == m;
        }
      }
    }
    forall i | n <= i < |all|
      ensures all[i].source < |sources|
      ensures var gift := after[all[i].source].matched - sources[all[i].source].matched;
              gift > 0 && all[i] == Alloc(all[i].source, r, gift, true, now, false, Some(Auto(all[i].source, r)), None, "")
    {
      assert all[i] == more[i - n] && Gives(more[i - n], r, ids, takes, now);
    }
    assert forall i :: n <= i < |all| ==> all[i] == more[i - n];
  }

  lemma GatheredIsPaidIn(db: Db, d: Db, r: nat, ids: seq<nat>, takes: seq<int>, now: int)
    requires r < |db.accounts| && SourceIds(db.sources, ids) && Distinct(ids) && |takes| == |ids|
    requires Gathered(db, d, r, ids, takes, now) && forall k :: 0 <= k < |takes| ==> takes[k] >= 0
    ensures PaidIn(db.sources, d.sources, db.allocs, d.allocs, r, now)
  {
    CreditRowsAreGifts(r, ids, takes, now);
    GiftsArePaidIn(db.sources, d.sources, db.allocs, CreditRows(r, ids, takes, now), r, ids, takes, now);
  }

  /** What a credit gave is what it had to give: it was spendable, and any older one is used up by then. */
  lemma CreditsInTurn(db: Db, d: Db, r: nat, ids: seq<nat>, takes: seq<int>, now: int)
    requires r < |db.accounts| && db.accounts[r].currency == CNY && !db.accounts[r].voided
    requires Outstanding(db.accounts[r]) >= 0 && d == AutoCredit(db, r, now)
    requires forall m :: 0 <= m < |db.sources| && db.sources[m].kind == CreditMemo ==> db.sources[m].currency == CNY
    requires ids == CreditIds(db, r) && |takes| == |ids| && Gave(db.sources, d.sources, ids, takes)
    requires forall k :: 0 <= k < |ids| ==> 0 <= takes[k] <= Offer(db, r, ids[k])
    ensures OldestFirst(db, d.sources, r, db.accounts[r].party)
  {
    forall m | 0 <= m < |db.sources| && d.sources[m] != db.sources[m]
      ensures Spendable(db, r, db.accounts[r].party, m) && Usable(db, r, m)
    {
      assert m in ids;
      var k :| 0 <= k < |ids| && ids[k] == m;
      assert takes[k] <= Offer(db, r, m);
    }
    forall m, n | 0 <= m < |db.sources| && 0 <= n < |db.sources| && d.sources[n] != db.sources[n]
                  && Fairness.IssuedBefore(db.sources, m, n) && Spendable(db, r, db.accounts[r].party, m)
      ensures d.sources[m].amount == d.sources[m].matched
    {
      Fairness.OldestCreditIsUsedFirst(db, r, now, m, n);
      assert d.sources[m] == db.sources[m].(matched := d.sources[m].matched) by {
        assert m in ids;
        var k :| 0 <= k < |ids| && ids[k] == m;
      }
    }
  }

  /** A new yuan receivable, after the automatic use of credits. */
  lemma FreshReceivableIsPaid(db: Db, r: nat, now: int)
    requires r < |db.accounts| && db.accounts[r].currency == CNY && !db.accounts[r].voided
    requires db.accounts[r].credited == db.accounts[r].matched == 0 && db.accounts[r].original >= 0
    requires forall m :: 0 <= m < |db.sources| && db.sources[m].kind == CreditMemo ==> db.sources[m].currency == CNY
    ensures
      var d, acc := AutoCredit(db, r, now), db.accounts[r];
      var used := Min(acc.original, Spare(db, r, acc.party, |db.sources|));
      && d.accounts == db.accounts[r := acc.(matched := used)] && d.memos == db.memos
      && PaidIn(db.sources, d.sources, db.allocs, d.allocs, r, now)
      && OldestFirst(db, d.sources, r, acc.party)
  {
    var ids, takes := GatheredTotals(db, r, now);
    var d := AutoCredit(db, r, now);
    GatheredMeans(db, d, r, ids, takes, now);
    CreditsInTurn(db, d, r, ids, takes, now);
  }

  lemma GatheredMeans(db: Db, d: Db, r: nat, ids: seq<nat>, takes: seq<int>, now: int)
    requires r < |db.accounts| && SourceIds(db.sources, ids) && Distinct(ids) && |takes| == |ids|
    requires Gathered(db, d, r, ids, takes, now) && forall k :: 0 <= k < |takes| ==> takes[k] >= 0
    requires db.accounts[r].matched == 0
    ensures d.accounts == db.accounts[r := db.accounts[r].(matched := Sum(takes))] && d.memos == db.memos
    ensures PaidIn(db.sources, d.sources, db.allocs, d.allocs, r, now) && Gave(db.sources, d.sources, ids, takes)
  {
    GatheredIsPaidIn(db, d, r, ids, takes, now);
  }

  lemma GatheredTotals(db: Db, r: nat, now: int) returns (ids: seq<nat>, takes: seq<int>)
    requires r < |db.accounts| && db.accounts[r].currency == CNY && !db.accounts[r].voided
    requires db.accounts[r].credited == db.accounts[r].matched == 0 && db.accounts[r].original >= 0
    requires forall m :: 0 <= m < |db.sources| && db.sources[m].kind == CreditMemo ==> db.sources[m].currency == CNY
    ensures ids == CreditIds(db, r) && |takes| == |ids|
    ensures Gathered(db, AutoCredit(db, r, now), r, ids, takes, now)
    ensures forall k :: 0 <= k < |ids| ==> 0 <= takes[k] <= Offer(db, r, ids[k])
    ensures Sum(takes) == Min(db.accounts[r].original, Spare(db, r, db.accounts[r].party, |db.sources|))
  {
    ids, takes := AutoCreditIsGreedy(db, r, now);
    OffersAreSpare(db, r, |db.sources|);
  }

  /** An outbound order that is confirmed opens one receivable, the one it was given; a yuan receivable is paid at
      once from what the posted credits of the customer with a free key have left, the oldest first. */
  lemma OutboundIsExact(db: Db, customer: nat, currency: string, amount: int, due: Option<int>, now: int)
    requires Inv(db) && Wired(db)
    ensures
      var d, r := Step(db, OpOutbound(customer, currency, amount, due, now)), |db.accounts|;
      var used := if currency == CNY then Min(amount, Spare(db, r, customer, |db.sources|)) else 0;
      if amount >= 0 then
        && d.accounts == db.accounts + [Account(Receivable, customer, currency, amount, 0, used, due, now, false)]
        && d.memos == db.memos
        && PaidIn(db.sources, d.sources, db.allocs, d.allocs, r, now) && OldestFirst(db, d.sources, r, customer)
        && (currency != CNY ==> d.sources == db.sources && d.allocs == db.allocs)
      else d == db
  {
    if amount >= 0 && currency == CNY { BilledInYuan(db, customer, amount, due, now); }
  }

  lemma BilledInYuan(db: Db, customer: nat, amount: int, due: Option<int>, now: int)
    requires Inv(db) && Wired(db) && amount >= 0
    ensures
      var d, r := Step(db, OpOutbound(customer, CNY, amount, due, now)), |db.accounts|;
      var used := Min(amount, Spare(db, r, customer, |db.sources|));
      && d.accounts == db.accounts + [Account(Receivable, customer, CNY, amount, 0, used, due, now, false)]
      && d.memos == db.memos
      && PaidIn(db.sources, d.sources, db.allocs, d.allocs, r, now) && OldestFirst(db, d.sources, r, customer)
  {
    var r := |db.accounts|;
    var e := db.(accounts := db.accounts + [Account(Receivable, customer, CNY, amount, 0, 0, due, now, false)]);
    forall m | 0 <= m < |db.sources| && db.sources[m].kind == CreditMemo ensures db.sources[m].currency == CNY {
      assert SourceOk(db, m);
    }
    FreshReceivableIsPaid(e, r, now);
    SpareIsTheSame(db, e, r, customer, |db.sources|);
    var d := Step(db, OpOutbound(customer, CNY, amount, due, now));
    assert d == AutoCredit(e, r, now);
    SameOldestFirst(db, e, d.sources, r, customer);
  }

  lemma SameOldestFirst(db: Db, e: Db, after: seq<Source>, r: nat, customer: nat)
    requires e.sources == db.sources && e.allocs == db.allocs && OldestFirst(e, after, r, customer)
    ensures OldestFirst(db, after, r, customer)
  {
    assert forall m: nat :: Spendable(e, r, customer, m) <==> Spendable(db, r, customer, m);
  }

  lemma {:induction false} SpareIsTheSame(db: Db, e: Db, r: nat, customer: nat, n: nat)
    requires e.sources == db.sources && e.allocs == db.allocs && n <= |db.sources|
    ensures Spare(e, r, customer, n) == Spare(db, r, customer, n)
  {
    if n > 0 { SpareIsTheSame(db, e, r, customer, n - 1); }
  }

  /** An inbound order opens one payable, the one it was given, and touches nothing else. */
  lemma InboundIsExact(db: Db, supplier: nat, currency: string, amount: int, due: Option<int>, now: int)
    requires Inv(db) && Wired(db)
    ensures Step(db, OpInbound(supplier, currency, amount, due, now)) ==
              if amount < 0 then db
              else db.(accounts := db.accounts + [Account(Payable, supplier, currency, amount, 0, 0, due, now, false)])
  {}
}
