/**
 The allocation engine as functions on the ledger: automatic, manual and reversing
 allocation, and what the receipt and payment services wrap around them.
 Every function follows allocation_engine.py branch by branch; the lemmas say what the
 branches achieve.
 */
module Engine {
  import opened Base
  import opened Greedy
  import opened LedgerRows
  import opened Ordering

  datatype Error =
    | NotFound | SourceVoided | NotUnclaimed | HasActiveAllocations
    | AccountVoided | CounterpartyMismatch | CurrencyMismatch | PairAlreadyActive
    | ExceedsSource | ExceedsAccount | ReverseNotFound
    | IdempotencyConflict | SourceInvalid

  // ---------- Aging order ----------

  /** (due date, nulls last), then creation time, then id. */
  predicate Older(accounts: seq<Account>, i: nat, j: nat) {
    && i < |accounts| && j < |accounts|
    && var a, b := accounts[i], accounts[j];
    if a.dueAt != b.dueAt then
      a.dueAt.Some? && (b.dueAt.None? || a.dueAt.value < b.dueAt.value)
    else if a.createdAt != b.createdAt then a.createdAt < b.createdAt
    else i < j
  }

  function Aging(accounts: seq<Account>): Precedes {
    (i: nat, j: nat) => Older(accounts, i, j)
  }

  ghost predicate Indexed(accounts: seq<Account>, ids: seq<nat>) {
    forall k :: 0 <= k < |ids| ==> ids[k] < |accounts|
  }

  /** The open accounts among the first n that a source may settle, oldest first. */
  function OpenAmong(db: Db, s: nat, n: nat): (ids: seq<nat>)
    requires s < |db.sources| && n <= |db.accounts|
    ensures Ordered(Aging(db.accounts), ids)
    ensures forall a: nat :: a in ids <==> a < n && Eligible(db, s, a)
  {
    if n == 0 then []
    else
      var ids := OpenAmong(db, s, n - 1);
      if Eligible(db, s, n - 1) then
        InsertKeepsOrder(Aging(db.accounts), n - 1, ids);
        Insert(Aging(db.accounts), n - 1, ids)
      else ids
  }

  /** The candidate filter of the automatic allocation. */
  predicate Eligible(db: Db, s: nat, a: nat)
    requires s < |db.sources| && a < |db.accounts|
  {
    var src, acc := db.sources[s], db.accounts[a];
    && acc.side == SideOf(src.kind)
    && src.party == Some(acc.party) && acc.currency == src.currency
    && !acc.voided && Outstanding(acc) > 0
  }

  function OpenIds(db: Db, s: nat): (ids: seq<nat>)
    requires s < |db.sources|
    ensures Indexed(db.accounts, ids) && Distinct(ids) && Ordered(Aging(db.accounts), ids)
    ensures forall a: nat :: a in ids <==> a < |db.accounts| && Eligible(db, s, a)
  {
    var ids := OpenAmong(db, s, |db.accounts|);
    assert forall i :: 0 <= i < |ids| ==> ids[i] in ids;
    ids
  }

  /** The aging order is strict and total on accounts, so the query has one answer only. */
  lemma OpenIdsIsTheQuery(db: Db, s: nat, ids: seq<nat>)
    requires s < |db.sources| && Ordered(Aging(db.accounts), ids)
    requires forall a: nat :: a in ids <==> a < |db.accounts| && Eligible(db, s, a)
    ensures ids == OpenIds(db, s)
  {
    OrderIsUnique(Aging(db.accounts), ids, OpenIds(db, s));
  }

  // ---------- Automatic allocation ----------

  function EngineRow(s: nat, a: nat, take: int, auto: bool, now: int): Alloc {
    Alloc(s, a, take, auto, now, false, None, None, "")
  }

  function TakeOne(db: Db, s: nat, a: nat, auto: bool, now: int): (d: Db)
    requires s < |db.sources| && a < |db.accounts|
    ensures |d.sources| == |db.sources| && |d.accounts| == |db.accounts|
  {
    var take := Min(Remaining(db.sources[s]), Outstanding(db.accounts[a]));
    if take <= 0 then db else Attach(db, EngineRow(s, a, take, auto, now))
  }

  function AutoFrom(db: Db, s: nat, ids: seq<nat>, now: int): (d: Db)
    requires s < |db.sources| && Indexed(db.accounts, ids)
    ensures |d.sources| == |db.sources| && |d.accounts| == |db.accounts|
    decreases ids
  {
    if ids == [] || Remaining(db.sources[s]) <= 0 then db
    else if db.accounts[ids[0]].voided then AutoFrom(db, s, ids[1..], now)
    else AutoFrom(TakeOne(db, s, ids[0], true, now), s, ids[1..], now)
  }

  function AutoAllocate(db: Db, s: nat, now: int): (d: Db)
    requires s < |db.sources|
    ensures |d.sources| == |db.sources| && |d.accounts| == |db.accounts|
  {
    if db.sources[s].party.None? || Remaining(db.sources[s]) <= 0 then db
    else AutoFrom(db, s, OpenIds(db, s), now)
  }

  function Demands(accounts: seq<Account>, ids: seq<nat>): (demands: seq<int>)
    requires Indexed(accounts, ids)
    ensures |demands| == |ids|
    ensures forall i :: 0 <= i < |ids| ==> demands[i] == Outstanding(accounts[ids[i]])
  {
    if ids == [] then [] else [Outstanding(accounts[ids[0]])] + Demands(accounts, ids[1..])
  }

  /** One row for each account that gets money, in aging order. */
  function AutoRows(s: nat, ids: seq<nat>, takes: seq<int>, now: int): seq<Alloc>
    requires |takes| == |ids|
  {
    if ids == [] then []
    else (if takes[0] > 0 then [EngineRow(s, ids[0], takes[0], true, now)] else [])
         + AutoRows(s, ids[1..], takes[1..], now)
  }

  /** The ledger after the given takes: nothing else moves. */
  ghost predicate Spread(db: Db, d: Db, s: nat, ids: seq<nat>, takes: seq<int>, now: int)
    requires s < |db.sources| && Indexed(db.accounts, ids) && |takes| == |ids|
  {
    && d.memos == db.memos
    && d.allocs == db.allocs + AutoRows(s, ids, takes, now)
    && d.sources == db.sources[s := db.sources[s].(matched := db.sources[s].matched + Sum(takes))]
    && |d.accounts| == |db.accounts|
    && (forall i :: 0 <= i < |ids| ==>
          var a := db.accounts[ids[i]];
          d.accounts[ids[i]] == a.(matched := a.matched + takes[i]))
    && (forall a: nat :: a < |db.accounts| && a !in ids ==> d.accounts[a] == db.accounts[a])
  }

  /** Putting one take in front of a spread over the younger accounts. */
  lemma SpreadStep(db: Db, d: Db, e: Db, s: nat, ids: seq<nat>, takes: seq<int>, now: int)
    requires s < |db.sources| && Indexed(db.accounts, ids) && Distinct(ids)
    requires |takes| == |ids| > 0 && takes[0] >= 0
    requires d == if takes[0] > 0 then Attach(db, EngineRow(s, ids[0], takes[0], true, now)) else db
    requires Spread(d, e, s, ids[1..], takes[1..], now)
    ensures Spread(db, e, s, ids, takes, now)
  {
    var rest, t := ids[1..], takes[1..];
    assert e.allocs == db.allocs + AutoRows(s, ids, takes, now);
    assert e.sources == db.sources[s := db.sources[s].(matched := db.sources[s].matched + Sum(takes))];
    assert ids[0] !in rest;
    forall i | 0 <= i < |ids|
      ensures var a := db.accounts[ids[i]];
              e.accounts[ids[i]] == a.(matched := a.matched + takes[i])
    {
      if i > 0 {
        assert ids[i] == rest[i - 1] && takes[i] == t[i - 1];
        assert d.accounts[ids[i]] == db.accounts[ids[i]];
      }
    }
    forall a: nat | a < |db.accounts| && a !in ids
      ensures e.accounts[a] == db.accounts[a]
    {
      assert a !in rest;
    }
  }

  /** One turn of the loop, also where the source has nothing left and the loop has stopped. */
  lemma AutoFromTurn(db: Db, s: nat, ids: seq<nat>, now: int)
    requires s < |db.sources| && Indexed(db.accounts, ids) && ids != []
    requires !db.accounts[ids[0]].voided && Remaining(db.sources[s]) >= 0
    ensures AutoFrom(db, s, ids, now) == AutoFrom(TakeOne(db, s, ids[0], true, now), s, ids[1..], now)
  {
    if Remaining(db.sources[s]) == 0 {
      AutoFromDone(db, s, ids[1..], now);
    }
  }

  /** The turn takes what the fill says, and leaves what the fill leaves. */
  lemma FirstTake(db: Db, s: nat, ids: seq<nat>, now: int)
    requires s < |db.sources| && Indexed(db.accounts, ids) && ids != []
    requires Remaining(db.sources[s]) >= 0 && Outstanding(db.accounts[ids[0]]) > 0
    ensures var left := Remaining(db.sources[s]);
            var t := Fill(left, Demands(db.accounts, ids))[0];
            var d := TakeOne(db, s, ids[0], true, now);
            && t >= 0 && d == (if t > 0 then Attach(db, EngineRow(s, ids[0], t, true, now)) else db)
            && Remaining(d.sources[s]) == left - t
  {
    FillTail(Remaining(db.sources[s]), Demands(db.accounts, ids));
  }

  ghost predicate AllOpen(accounts: seq<Account>, ids: seq<nat>)
    requires Indexed(accounts, ids)
  {
    forall i :: 0 <= i < |ids| ==> !accounts[ids[i]].voided && Outstanding(accounts[ids[i]]) > 0
  }

  /** The accounts after the first are as they were. */
  lemma RestStaysOpen(db: Db, s: nat, ids: seq<nat>, now: int)
    requires s < |db.sources| && Indexed(db.accounts, ids) && Distinct(ids) && ids != []
    requires AllOpen(db.accounts, ids)
    ensures var d, rest := TakeOne(db, s, ids[0], true, now), ids[1..];
            && Indexed(db.accounts, rest) && Distinct(rest) && Indexed(d.accounts, rest) && AllOpen(d.accounts, rest)
            && Demands(d.accounts, rest) == Demands(db.accounts, ids)[1..]
  {
    var d, rest := TakeOne(db, s, ids[0], true, now), ids[1..];
    assert forall i :: 0 <= i < |rest| ==> rest[i] == ids[i + 1] && rest[i] != ids[0];
    SameDemands(db.accounts, d.accounts, rest);
  }

  ghost predicate FillsUp(db: Db, s: nat, ids: seq<nat>, now: int)
    requires s < |db.sources| && Indexed(db.accounts, ids)
  {
    Spread(db, AutoFrom(db, s, ids, now), s, ids, Fill(Remaining(db.sources[s]), Demands(db.accounts, ids)), now)
  }

  /** One turn in front of the turns that follow. */
  lemma TurnFillsUp(db: Db, s: nat, ids: seq<nat>, now: int)
    requires s < |db.sources| && Indexed(db.accounts, ids) && Distinct(ids) && AllOpen(db.accounts, ids)
    requires Remaining(db.sources[s]) >= 0 && ids != [] && Indexed(db.accounts, ids[1..])
    requires FillsUp(TakeOne(db, s, ids[0], true, now), s, ids[1..], now)
    ensures FillsUp(db, s, ids, now)
  {
    var d := TakeOne(db, s, ids[0], true, now);
    var takes := Fill(Remaining(db.sources[s]), Demands(db.accounts, ids));
    FirstTake(db, s, ids, now);
    RestStaysOpen(db, s, ids, now);
    FillTailAs(Remaining(db.sources[s]), Demands(db.accounts, ids), Remaining(d.sources[s]), Demands(d.accounts, ids[1..]));
    SpreadStep(db, d, AutoFrom(d, s, ids[1..], now), s, ids, takes, now);
    AutoFromTurn(db, s, ids, now);
  }

  lemma {:induction false} AutoFromIsFill(db: Db, s: nat, ids: seq<nat>, now: int)
    requires s < |db.sources| && Indexed(db.accounts, ids) && Distinct(ids) && AllOpen(db.accounts, ids)
    requires Remaining(db.sources[s]) >= 0
    ensures FillsUp(db, s, ids, now)
    decreases ids
  {
    if ids == [] {
      assert db.sources[s := db.sources[s].(matched := db.sources[s].matched + 0)] == db.sources;
    } else {
      FirstTake(db, s, ids, now);
      RestStaysOpen(db, s, ids, now);
      AutoFromIsFill(TakeOne(db, s, ids[0], true, now), s, ids[1..], now);
      TurnFillsUp(db, s, ids, now);
    }
  }

  lemma {:induction false} SameDemands(before: seq<Account>, after: seq<Account>, ids: seq<nat>)
    requires Indexed(before, ids) && Indexed(after, ids)
    requires forall i :: 0 <= i < |ids| ==> after[ids[i]] == before[ids[i]]
    ensures Demands(after, ids) == Demands(before, ids)
  {
    if ids != [] {
      SameDemands(before, after, ids[1..]);
    }
  }

  lemma AutoFromDone(db: Db, s: nat, ids: seq<nat>, now: int)
    requires s < |db.sources| && Indexed(db.accounts, ids) && Remaining(db.sources[s]) <= 0
    ensures AutoFrom(db, s, ids, now) == db
  {}

  /**
   The automatic allocation is the greedy fill of the open accounts in aging order: it takes
   min(source remaining, all that is outstanding) and settles a prefix with at most one
   account paid in part. Nothing else in the ledger moves.
   */
  lemma AutoAllocateIsGreedy(db: Db, s: nat, now: int)
    returns (ids: seq<nat>, takes: seq<int>)
    requires s < |db.sources| && db.sources[s].party.Some?
    requires Remaining(db.sources[s]) >= 0
    ensures ids == OpenIds(db, s)
    ensures IsGreedy(Remaining(db.sources[s]), Demands(db.accounts, ids), takes)
    ensures Spread(db, AutoAllocate(db, s, now), s, ids, takes, now)
  {
    ids := OpenIds(db, s);
    var left, demands := Remaining(db.sources[s]), Demands(db.accounts, ids);
    takes := Fill(left, demands);
    OpenIdsAreOpen(db, s);
    FillIsGreedy(left, demands);
    AutoFromIsFill(db, s, ids, now);
    AutoAllocateRunsTheLoop(db, s, now);
  }

  lemma OpenIdsAreOpen(db: Db, s: nat)
    requires s < |db.sources|
    ensures var ids := OpenIds(db, s);
            Indexed(db.accounts, ids) && forall i :: 0 <= i < |ids| ==> Eligible(db, s, ids[i])
  {
    var ids := OpenIds(db, s);
    forall i | 0 <= i < |ids| ensures Eligible(db, s, ids[i]) {
      assert ids[i] in ids;
    }
  }

  lemma AutoAllocateRunsTheLoop(db: Db, s: nat, now: int)
    requires s < |db.sources| && db.sources[s].party.Some?
    ensures AutoAllocate(db, s, now) == AutoFrom(db, s, OpenIds(db, s), now)
  {}

  /** It ends with the source exhausted or with every eligible account settled. */
  lemma AutoAllocateIsMaximal(db: Db, s: nat, now: int)
    requires s < |db.sources| && db.sources[s].party.Some?
    requires Remaining(db.sources[s]) >= 0
    ensures var d := AutoAllocate(db, s, now);
            Remaining(d.sources[s]) == 0
            || forall a: nat :: a < |d.accounts| && Eligible(db, s, a) ==> Outstanding(d.accounts[a]) == 0
  {
    var ids, takes := AutoAllocateIsGreedy(db, s, now);
    var demands := Demands(db.accounts, ids);
    GreedyStops(Remaining(db.sources[s]), demands, takes);
    var d := AutoAllocate(db, s, now);
    if takes == demands {
      forall a: nat | a < |d.accounts| && Eligible(db, s, a) ensures Outstanding(d.accounts[a]) == 0 {
        assert a in ids;
        var i :| 0 <= i < |ids| && ids[i] == a;
        assert takes[i] == Outstanding(db.accounts[a]);
      }
    }
  }

  /** Each step of the loop keeps the ledger invariant, so every flush sees it. */
  lemma {:induction false} AutoFromKeepsInv(db: Db, s: nat, ids: seq<nat>, now: int)
    requires Inv(db) && s < |db.sources| && Indexed(db.accounts, ids) && Distinct(ids)
    requires db.sources[s].status == Live && db.sources[s].kind != CreditMemo
    requires forall i :: 0 <= i < |ids| ==>
                           && db.accounts[ids[i]].side == SideOf(db.sources[s].kind)
                           && Joins(db.sources[s], db.accounts[ids[i]])
                           && !ActivePair(db, s, ids[i])
    ensures Inv(AutoFrom(db, s, ids, now))
    decreases ids
  {
    if ids != [] && Remaining(db.sources[s]) > 0 {
      var d := if db.accounts[ids[0]].voided then db else TakeOne(db, s, ids[0], true, now);
      if d != db {
        AttachKeepsInv(db, d.allocs[|db.allocs|]);
      }
      forall i | 0 <= i < |ids[1..]|
        ensures Joins(d.sources[s], d.accounts[ids[1..][i]]) && !ActivePair(d, s, ids[1..][i])
        ensures d.accounts[ids[1..][i]].side == SideOf(d.sources[s].kind)
      {
        assert ids[1..][i] == ids[i + 1];
        assert !ActivePair(db, s, ids[i + 1]);
        assert forall k :: 0 <= k < |db.allocs| ==> d.allocs[k] == db.allocs[k];
      }
      AutoFromKeepsInv(d, s, ids[1..], now);
    }
  }

  /** The loop never checks for an existing pair: it is safe because its source has none. */
  lemma AutoAllocateKeepsInv(db: Db, s: nat, now: int)
    requires Inv(db) && s < |db.sources|
    requires db.sources[s].status == Live && db.sources[s].kind != CreditMemo
    requires db.sources[s].matched == 0
    ensures Inv(AutoAllocate(db, s, now))
  {
    if db.sources[s].party.Some? {
      NothingMatchedNoRows(db, s);
      var ids := OpenIds(db, s);
      OpenIdsAreOpen(db, s);
      AutoFromKeepsInv(db, s, ids, now);
    }
  }

  lemma NothingMatchedNoRows(db: Db, s: nat)
    requires Inv(db) && s < |db.sources| && db.sources[s].matched == 0
    ensures forall i :: 0 <= i < |db.allocs| && db.allocs[i].source == s ==> db.allocs[i].reversed
    ensures forall a: nat :: !ActivePair(db, s, a)
  {
    assert SourceOk(db, s);
    forall j | 0 <= j < |db.allocs| ensures db.allocs[j].amount > 0 {
      assert RowOk(db, j);
    }
    HeldBounds(db.allocs, OfSource(s));
  }

  // ---------- Register, claim, void ----------

  function AddSource(db: Db, src: Source): Db {
    db.(sources := db.sources + [src])
  }

  lemma AddSourceKeepsInv(db: Db, src: Source)
    requires Inv(db) && src.amount > 0 && src.matched == 0
    requires src.kind != Receipt ==> src.party.Some?
    requires src.kind == CreditMemo ==> src.currency == CNY
    requires src.kind != CreditMemo ==> src.status == Live
    ensures Inv(AddSource(db, src))
  {
    var d := AddSource(db, src);
    forall i | 0 <= i < |d.allocs| ensures RowOk(d, i) {
      assert RowOk(db, i);
    }
    forall s | 0 <= s < |d.sources| ensures SourceOk(d, s) {
      if s < |db.sources| {
        assert SourceOk(db, s);
      } else {
        forall i | 0 <= i < |d.allocs| ensures d.allocs[i].source != s {
          assert RowOk(db, i);
        }
        HeldNothing(d.allocs, OfSource(s));
      }
    }
    forall a | 0 <= a < |d.accounts| ensures AccountOk(d, a) {
      assert AccountOk(db, a);
    }
    forall m | 0 <= m < |d.memos| ensures MemoOk(d, m) {
      assert MemoOk(db, m);
    }
  }

  /** A receipt may come without a customer; a payment always has its supplier. */
  function Register(db: Db, kind: Kind, party: Option<nat>, currency: string, amount: int, now: int): (r: Result<Db, Error>)
  {
    if kind == CreditMemo || amount <= 0 || (kind == Payment && party.None?) then Err(SourceInvalid)
    else
      var d := AddSource(db, Source(kind, party, currency, amount, 0, Live, now, 0, 0));
      Ok(if party.Some? then AutoAllocate(d, |db.sources|, now) else d)
  }

  predicate IsEngineSource(db: Db, kind: Kind, s: nat) {
    kind != CreditMemo && s < |db.sources| && db.sources[s].kind == kind
  }

  function SetParty(db: Db, s: nat, party: nat): Db
    requires s < |db.sources|
  {
    db.(sources := db.sources[s := db.sources[s].(party := Some(party))])
  }

  function SetStatus(db: Db, s: nat, status: Status): Db
    requires s < |db.sources|
  {
    db.(sources := db.sources[s := db.sources[s].(status := status)])
  }

  function Claim(db: Db, s: nat, customer: nat, now: int): (r: Result<Db, Error>) {
    if !IsEngineSource(db, Receipt, s) then Err(NotFound)
    else if db.sources[s].status == Voided then Err(SourceVoided)
    else if db.sources[s].party.Some? then Err(NotUnclaimed)
    else Ok(AutoAllocate(SetParty(db, s, customer), s, now))
  }

  predicate HasActive(db: Db, s: nat) {
    exists i :: 0 <= i < |db.allocs| && db.allocs[i].source == s && !db.allocs[i].reversed
  }

  function VoidSource(db: Db, kind: Kind, s: nat): (r: Result<Db, Error>) {
    if !IsEngineSource(db, kind, s) then Err(NotFound)
    else if db.sources[s].status == Voided then Err(SourceVoided)
    else if HasActive(db, s) then Err(HasActiveAllocations)
    else Ok(SetStatus(db, s, Voided))
  }

  lemma IdleSourceEditKeepsInv(db: Db, s: nat, src: Source)
    requires Inv(db) && s < |db.sources| && !HasActive(db, s)
    requires src == db.sources[s].(party := src.party, status := src.status)
    requires src.kind != Receipt ==> src.party.Some?
    requires src.kind != CreditMemo ==> src.status == Live || src.status == Voided
    ensures Inv(db.(sources := db.sources[s := src]))
  {
    var d := db.(sources := db.sources[s := src]);
    forall i | 0 <= i < |d.allocs| ensures RowOk(d, i) {
      assert RowOk(db, i);
    }
    forall t | 0 <= t < |d.sources| ensures SourceOk(d, t) {
      assert SourceOk(db, t);
    }
    forall a | 0 <= a < |d.accounts| ensures AccountOk(d, a) {
      assert AccountOk(db, a);
    }
    forall m | 0 <= m < |d.memos| ensures MemoOk(d, m) {
      assert MemoOk(db, m);
    }
  }

  /** Active rows of a source exist exactly when its running total is positive. */
  lemma ActiveIffMatched(db: Db, s: nat)
    requires Inv(db) && s < |db.sources|
    ensures db.sources[s].matched >= 0
    ensures HasActive(db, s) <==> db.sources[s].matched > 0
    ensures HasActive(db, s) ==> db.sources[s].status == Live && db.sources[s].party.Some?
  {
    assert SourceOk(db, s);
    forall j | 0 <= j < |db.allocs|
      ensures db.allocs[j].amount > 0
      ensures db.allocs[j].source == s && !db.allocs[j].reversed
              ==> db.sources[s].status == Live && db.sources[s].party.Some?
    {
      assert RowOk(db, j);
    }
    HeldBounds(db.allocs, OfSource(s));
    if !HasActive(db, s) {
      HeldNothing(db.allocs, OfSource(s));
    }
  }

  // ---------- Manual allocation and its reversal ----------

  /** The guards, in the order the service and the engine test them. */
  function ManualGuard(db: Db, kind: Kind, s: nat, a: nat): Option<Error> {
    if !IsEngineSource(db, kind, s) then Some(NotFound)
    else if db.sources[s].status == Voided then Some(SourceVoided)
    else if db.sources[s].party.None? then Some(NotUnclaimed)
    else if a >= |db.accounts| || db.accounts[a].side != SideOf(kind) then Some(NotFound)
    else if db.accounts[a].voided then Some(AccountVoided)
    else if Some(db.accounts[a].party) != db.sources[s].party then Some(CounterpartyMismatch)
    else if db.accounts[a].currency != db.sources[s].currency then Some(CurrencyMismatch)
    else if ActivePair(db, s, a) then Some(PairAlreadyActive)
    else if Remaining(db.sources[s]) <= 0 then Some(ExceedsSource)
    else if Outstanding(db.accounts[a]) <= 0 then Some(ExceedsAccount)
    else None
  }

  function ManualAllocate(db: Db, kind: Kind, s: nat, a: nat, now: int): (r: Result<Db, Error>) {
    match ManualGuard(db, kind, s, a)
    case Some(e) => Err(e)
    case None => Ok(TakeOne(db, s, a, false, now))
  }

  lemma ManualAllocateKeepsInv(db: Db, kind: Kind, s: nat, a: nat, now: int)
    requires Inv(db)
    ensures var r := ManualAllocate(db, kind, s, a, now); r.Ok? ==> Inv(r.value)
  {
    var r := ManualAllocate(db, kind, s, a, now);
    if r.Ok? {
      assert SourceOk(db, s);
      AttachKeepsInv(db, r.value.allocs[|db.allocs|]);
    }
  }

  /** The row must belong to the table the caller reverses in. */
  predicate ReversibleRow(db: Db, kind: Kind, i: nat) {
    && i < |db.allocs| && !db.allocs[i].reversed
    && db.allocs[i].source < |db.sources| && db.allocs[i].account < |db.accounts|
    && kind != CreditMemo && db.sources[db.allocs[i].source].kind == kind
  }

  function Reverse(db: Db, kind: Kind, i: nat, reason: string): (r: Result<Db, Error>) {
    if !ReversibleRow(db, kind, i) then Err(ReverseNotFound)
    else Ok(Detach(db, i, None, reason))
  }

  lemma ReverseKeepsInv(db: Db, kind: Kind, i: nat, reason: string)
    requires Inv(db)
    ensures var r := Reverse(db, kind, i, reason); r.Ok? ==> Inv(r.value)
  {
    if ReversibleRow(db, kind, i) {
      assert RowOk(db, i);
      DetachKeepsInv(db, i, None, reason);
    }
  }

  /**
   Manual allocation takes everything it may, so the source or the account is used up; the
   reversal of the row it made restores both totals, leaves the row as a trace, and cannot
   be repeated.
   */
  lemma ManualThenReverse(db: Db, kind: Kind, s: nat, a: nat, now: int, reason: string)
    requires Inv(db) && ManualGuard(db, kind, s, a).None?
    ensures var d := ManualAllocate(db, kind, s, a, now).value;
            var row := |db.allocs|;
            && |d.allocs| == row + 1
            && d.allocs[row] == EngineRow(s, a, Min(Remaining(db.sources[s]), Outstanding(db.accounts[a])), false, now)
            && (Remaining(d.sources[s]) == 0 || Outstanding(d.accounts[a]) == 0)
            && ManualAllocate(d, kind, s, a, now) == Err(PairAlreadyActive)
            && var back := Reverse(d, kind, row, reason);
            && back.Ok? && back.value.sources == db.sources && back.value.accounts == db.accounts
            && back.value.allocs == db.allocs + [d.allocs[row].(reversed := true, undoReason := reason)]
            && Reverse(back.value, kind, row, reason) == Err(ReverseNotFound)
  {
    var d := ManualAllocate(db, kind, s, a, now).value;
    assert !d.allocs[|db.allocs|].reversed;
    assert ActivePair(d, s, a);
    var back := Reverse(d, kind, |db.allocs|, reason).value;
    assert back.sources == db.sources;
    assert back.accounts == db.accounts;
  }
}
