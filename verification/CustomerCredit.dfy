/**
 Customer credit memos: their approval states, the idempotent allocation of a credit to a
 receivable and its idempotent reversal, and the automatic use of posted credits by a new
 receivable (customer_credit_memo_service.py).
 */
module CustomerCredit {
  import opened Base
  import opened Greedy
  import opened LedgerRows
  import opened Ordering
  import opened Engine

  predicate IsCredit(db: Db, s: nat) {
    s < |db.sources| && db.sources[s].kind == CreditMemo
  }

  // ---------- Approval states ----------

  predicate OpenCredit(src: Source) {
    src.kind == CreditMemo && (src.status == Pending || src.status == Live)
  }

  predicate HasOpenCredit(db: Db, origin: nat) {
    exists s :: 0 <= s < |db.sources| && OpenCredit(db.sources[s]) && db.sources[s].origin == origin
  }

  /** A disposition order backs at most one pending or posted credit. */
  ghost predicate OneOpenCredit(db: Db) {
    forall s, t :: 0 <= s < t < |db.sources| && OpenCredit(db.sources[s]) && OpenCredit(db.sources[t])
                   ==> db.sources[s].origin != db.sources[t].origin
  }

  function NewCredit(origin: nat, customer: nat, amount: int, actor: nat, now: int): Source {
    Source(CreditMemo, Some(customer), CNY, amount, 0, Pending, now, origin, actor)
  }

  /** `ready`: the disposition order is finished and the sales order has no active outbound order. */
  function CreateCredit(db: Db, origin: nat, customer: nat, amount: int, actor: nat, ready: bool, now: int): (r: Result<Db, Error>) {
    if !ready || amount <= 0 || HasOpenCredit(db, origin) then Err(SourceInvalid)
    else Ok(AddSource(db, NewCredit(origin, customer, amount, actor, now)))
  }

  /** Whoever created a credit may not post it. */
  function PostCredit(db: Db, s: nat, actor: nat, ready: bool): (r: Result<Db, Error>) {
    if !IsCredit(db, s) then Err(NotFound)
    else if db.sources[s].status != Pending || db.sources[s].createdBy == actor || !ready then Err(SourceInvalid)
    else Ok(SetStatus(db, s, Live))
  }

  function RejectCredit(db: Db, s: nat): (r: Result<Db, Error>) {
    if !IsCredit(db, s) then Err(NotFound)
    else if db.sources[s].status != Pending then Err(SourceInvalid)
    else Ok(SetStatus(db, s, Rejected))
  }

  /** The rejected memo stays; a new pending one takes its place. */
  function ResubmitCredit(db: Db, s: nat, amount: int, actor: nat, ready: bool, now: int): (r: Result<Db, Error>) {
    if !IsCredit(db, s) then Err(NotFound)
    else
      var prior := db.sources[s];
      if prior.status != Rejected || HasOpenCredit(db, prior.origin) || !ready || amount <= 0 || prior.party.None?
      then Err(SourceInvalid)
      else Ok(AddSource(db, NewCredit(prior.origin, prior.party.value, amount, actor, now)))
  }

  function VoidCredit(db: Db, s: nat, reason: string): (r: Result<Db, Error>) {
    if reason == "" then Err(SourceInvalid)
    else if !IsCredit(db, s) then Err(NotFound)
    else if db.sources[s].status == Voided then Err(SourceVoided)
    else if HasActive(db, s) then Err(HasActiveAllocations)
    else Ok(SetStatus(db, s, Voided))
  }

  // ---------- Idempotent allocation ----------

  /** The row that carries a key, found from the newest down; keys are unique. */
  function KeyRow(rows: seq<Alloc>, key: Key): (i: Option<nat>)
    ensures i.None? <==> forall k :: 0 <= k < |rows| ==> rows[k].key != Some(key)
    ensures i.Some? ==> i.value < |rows| && rows[i.value].key == Some(key)
  {
    if rows == [] then None
    else if rows[|rows| - 1].key == Some(key) then Some(|rows| - 1)
    else KeyRow(rows[..|rows| - 1], key)
  }

  function UndoRow(rows: seq<Alloc>, key: Key): (i: Option<nat>)
    ensures i.None? <==> forall k :: 0 <= k < |rows| ==> rows[k].undoKey != Some(key)
    ensures i.Some? ==> i.value < |rows| && rows[i.value].undoKey == Some(key)
  {
    if rows == [] then None
    else if rows[|rows| - 1].undoKey == Some(key) then Some(|rows| - 1)
    else UndoRow(rows[..|rows| - 1], key)
  }

  predicate SameRequest(row: Alloc, m: nat, r: nat, amount: Option<int>) {
    row.source == m && row.account == r && (amount.Some? ==> row.amount == amount.value)
  }

  function CreditGuard(db: Db, m: nat, r: nat): Option<Error> {
    if !IsCredit(db, m) then Some(NotFound)
    else if db.sources[m].status == Voided then Some(SourceVoided)
    else if db.sources[m].status != Live then Some(SourceInvalid)
    else if Remaining(db.sources[m]) <= 0 then Some(ExceedsSource)
    else if r >= |db.accounts| || db.accounts[r].side != Receivable then Some(NotFound)
    else if db.accounts[r].voided then Some(AccountVoided)
    else if Some(db.accounts[r].party) != db.sources[m].party then Some(CounterpartyMismatch)
    else if db.accounts[r].currency != db.sources[m].currency then Some(CurrencyMismatch)
    else if Outstanding(db.accounts[r]) <= 0 then Some(ExceedsAccount)
    else None
  }

  function CreditRow(m: nat, r: nat, take: int, auto: bool, now: int, key: Key): Alloc {
    Alloc(m, r, take, auto, now, false, Some(key), None, "")
  }

  /** Returns the new ledger and the row; a repeated key returns the first row and changes nothing. */
  function CreditAllocate(db: Db, m: nat, r: nat, amount: Option<int>, key: Key, now: int): (res: Result<(Db, nat), Error>) {
    var existing := KeyRow(db.allocs, key);
    if existing.Some? then
      if SameRequest(db.allocs[existing.value], m, r, amount) then Ok((db, existing.value))
      else Err(IdempotencyConflict)
    else
      match CreditGuard(db, m, r)
      case Some(e) => Err(e)
      case None =>
        var left, due := Remaining(db.sources[m]), Outstanding(db.accounts[r]);
        if amount.Some? && amount.value > left then Err(ExceedsSource)
        else if amount.Some? && amount.value > due then Err(ExceedsAccount)
        else
          var take := if amount.Some? then amount.value else Min(left, due);
          if take <= 0 then Err(ExceedsSource)
          else Ok((Attach(db, CreditRow(m, r, take, false, now, key)), |db.allocs|))
  }

  /** `reason` is the trimmed text; an empty one is refused. */
  function CreditReverse(db: Db, i: nat, reason: string, key: Key): (res: Result<(Db, nat), Error>) {
    if reason == "" then Err(SourceInvalid)
    else
      var existing := UndoRow(db.allocs, key);
      if existing.Some? then
        if existing.value == i && db.allocs[i].undoReason == reason then Ok((db, i)) else Err(IdempotencyConflict)
      else if i >= |db.allocs| || db.allocs[i].key.None? || db.allocs[i].reversed
              || db.allocs[i].source >= |db.sources| || db.allocs[i].account >= |db.accounts|
      then Err(ReverseNotFound)
      else Ok((Detach(db, i, Some(key), reason), i))
  }

  // ---------- Credits used by a new receivable ----------

  predicate CreditBefore(sources: seq<Source>, i: nat, j: nat) {
    && i < |sources| && j < |sources|
    && if sources[i].createdAt != sources[j].createdAt
       then sources[i].createdAt < sources[j].createdAt else i < j
  }

  function FirstPosted(sources: seq<Source>): Precedes {
    (i: nat, j: nat) => CreditBefore(sources, i, j)
  }

  predicate Usable(db: Db, r: nat, m: nat)
    requires r < |db.accounts| && m < |db.sources|
  {
    && db.sources[m].kind == CreditMemo && db.sources[m].status == Live
    && db.sources[m].party == Some(db.accounts[r].party)
    && db.sources[m].currency == db.accounts[r].currency
    && Remaining(db.sources[m]) > 0
  }

  function CreditsAmong(db: Db, r: nat, n: nat): (ids: seq<nat>)
    requires r < |db.accounts| && n <= |db.sources|
    ensures forall m: nat :: m in ids <==> m < n && Usable(db, r, m)
    ensures Ordered(FirstPosted(db.sources), ids)
  {
    if n == 0 then []
    else
      var ids := CreditsAmong(db, r, n - 1);
      if Usable(db, r, n - 1) then
        InsertKeepsOrder(FirstPosted(db.sources), n - 1, ids);
        Insert(FirstPosted(db.sources), n - 1, ids)
      else ids
  }

  ghost predicate SourceIds(sources: seq<Source>, ids: seq<nat>) {
    forall k :: 0 <= k < |ids| ==> ids[k] < |sources|
  }

  function CreditIds(db: Db, r: nat): (ids: seq<nat>)
    requires r < |db.accounts|
    ensures SourceIds(db.sources, ids) && Distinct(ids) && Ordered(FirstPosted(db.sources), ids)
    ensures forall m: nat :: m in ids <==> m < |db.sources| && Usable(db, r, m)
  {
    var ids := CreditsAmong(db, r, |db.sources|);
    assert forall i :: 0 <= i < |ids| ==> ids[i] in ids;
    ids
  }

  /** One turn of the loop: a credit whose `auto:` key is taken is passed over. */
  function UseCredit(db: Db, r: nat, m: nat, now: int): (d: Db)
    requires r < |db.accounts| && m < |db.sources|
    ensures |d.accounts| == |db.accounts| && |d.sources| == |db.sources|
  {
    if !Usable(db, r, m) || KeyUsed(db, Auto(m, r)) then db
    else Attach(db, CreditRow(m, r, Min(Remaining(db.sources[m]), Outstanding(db.accounts[r])), true, now, Auto(m, r)))
  }

  function CreditFrom(db: Db, r: nat, ids: seq<nat>, now: int): (d: Db)
    requires r < |db.accounts| && SourceIds(db.sources, ids)
    ensures |d.accounts| == |db.accounts| && |d.sources| == |db.sources|
    decreases ids
  {
    if ids == [] || Outstanding(db.accounts[r]) <= 0 then db
    else CreditFrom(UseCredit(db, r, ids[0], now), r, ids[1..], now)
  }

  function AutoCredit(db: Db, r: nat, now: int): (d: Db)
    requires r < |db.accounts|
    ensures |d.accounts| == |db.accounts| && |d.sources| == |db.sources|
  {
    var acc := db.accounts[r];
    if acc.currency != CNY || Outstanding(acc) <= 0 || acc.voided then db
    else CreditFrom(db, r, CreditIds(db, r), now)
  }

  /** What a credit can give: nothing when its key is taken. */
  function Offer(db: Db, r: nat, m: nat): int
    requires m < |db.sources|
  {
    if KeyUsed(db, Auto(m, r)) then 0 else Remaining(db.sources[m])
  }

  function Offers(db: Db, r: nat, ids: seq<nat>): (offers: seq<int>)
    requires SourceIds(db.sources, ids)
    ensures |offers| == |ids|
    ensures forall k :: 0 <= k < |ids| ==> offers[k] == Offer(db, r, ids[k])
  {
    if ids == [] then [] else [Offer(db, r, ids[0])] + Offers(db, r, ids[1..])
  }

  function CreditRows(r: nat, ids: seq<nat>, takes: seq<int>, now: int): seq<Alloc>
    requires |takes| == |ids|
  {
    if ids == [] then []
    else (if takes[0] > 0 then [CreditRow(ids[0], r, takes[0], true, now, Auto(ids[0], r))] else [])
         + CreditRows(r, ids[1..], takes[1..], now)
  }

  /** The ledger after the credits gave the takes to one receivable. */
  ghost predicate Gathered(db: Db, d: Db, r: nat, ids: seq<nat>, takes: seq<int>, now: int)
    requires r < |db.accounts| && SourceIds(db.sources, ids) && |takes| == |ids|
  {
    && d.memos == db.memos
    && d.allocs == db.allocs + CreditRows(r, ids, takes, now)
    && d.accounts == db.accounts[r := db.accounts[r].(matched := db.accounts[r].matched + Sum(takes))]
    && |d.sources| == |db.sources|
    && (forall k :: 0 <= k < |ids| ==>
          d.sources[ids[k]] == db.sources[ids[k]].(matched := db.sources[ids[k]].matched + takes[k]))
    && (forall m: nat :: m < |db.sources| && m !in ids ==> d.sources[m] == db.sources[m])
  }

  lemma GatherStep(db: Db, d: Db, e: Db, r: nat, ids: seq<nat>, takes: seq<int>, now: int)
    requires r < |db.accounts| && SourceIds(db.sources, ids) && Distinct(ids)
    requires |takes| == |ids| > 0 && takes[0] >= 0
    requires d == if takes[0] > 0 then Attach(db, CreditRow(ids[0], r, takes[0], true, now, Auto(ids[0], r))) else db
    requires Gathered(d, e, r, ids[1..], takes[1..], now)
    ensures Gathered(db, e, r, ids, takes, now)
  {
    var rest, more := ids[1..], takes[1..];
    assert e.allocs == db.allocs + CreditRows(r, ids, takes, now);
    assert e.accounts == db.accounts[r := db.accounts[r].(matched := db.accounts[r].matched + Sum(takes))];
    assert ids[0] !in rest;
    forall k | 0 <= k < |ids|
      ensures e.sources[ids[k]] == db.sources[ids[k]].(matched := db.sources[ids[k]].matched + takes[k])
    {
      if k > 0 {
        assert ids[k] == rest[k - 1] && takes[k] == more[k - 1];
      }
    }
    forall m: nat | m < |db.sources| && m !in ids ensures e.sources[m] == db.sources[m] {
      assert m !in rest;
    }
  }

  ghost predicate CreditFillsUp(db: Db, r: nat, ids: seq<nat>, now: int)
    requires r < |db.accounts| && SourceIds(db.sources, ids)
  {
    Gathered(db, CreditFrom(db, r, ids, now), r, ids, Fill(Outstanding(db.accounts[r]), Offers(db, r, ids)), now)
  }

  function FirstTurn(db: Db, r: nat, m: nat, now: int): (d: Db)
    requires r < |db.accounts| && m < |db.sources|
    ensures |d.accounts| == |db.accounts| && |d.sources| == |db.sources|
  {
    if Outstanding(db.accounts[r]) <= 0 then db else UseCredit(db, r, m, now)
  }

  lemma {:induction false} CreditFromIsFill(db: Db, r: nat, ids: seq<nat>, now: int)
    requires r < |db.accounts| && SourceIds(db.sources, ids) && Distinct(ids)
    requires forall k :: 0 <= k < |ids| ==> Usable(db, r, ids[k])
    requires Outstanding(db.accounts[r]) >= 0
    ensures CreditFillsUp(db, r, ids, now)
    decreases ids
  {
    if ids == [] {
      assert db.accounts[r := db.accounts[r].(matched := db.accounts[r].matched + 0)] == db.accounts;
    } else {
      var d := FirstTurn(db, r, ids[0], now);
      RestUsable(db, r, ids);
      SameOffers(db, d, r, ids[0], ids[1..], now);
      FirstUse(db, r, ids, now);
      CreditFromIsFill(d, r, ids[1..], now);
      CreditStep(db, r, ids, now);
    }
  }

  lemma CreditStep(db: Db, r: nat, ids: seq<nat>, now: int)
    requires r < |db.accounts| && SourceIds(db.sources, ids) && Distinct(ids) && ids != [] && SourceIds(db.sources, ids[1..])
    requires Usable(db, r, ids[0]) && Outstanding(db.accounts[r]) >= 0
    requires Offers(FirstTurn(db, r, ids[0], now), r, ids[1..]) == Offers(db, r, ids)[1..]
    requires CreditFillsUp(FirstTurn(db, r, ids[0], now), r, ids[1..], now)
    ensures CreditFillsUp(db, r, ids, now)
  {
    var due, offers := Outstanding(db.accounts[r]), Offers(db, r, ids);
    var d, takes := FirstTurn(db, r, ids[0], now), Fill(due, offers);
    FirstUse(db, r, ids, now);
    FillTailAs(due, offers, Outstanding(d.accounts[r]), Offers(d, r, ids[1..]));
    GatherStep(db, d, CreditFrom(d, r, ids[1..], now), r, ids, takes, now);
    CreditFromTurn(db, r, ids, now);
  }

  /** One turn of the loop, also where the receivable is settled and the loop has stopped. */
  lemma CreditFromTurn(db: Db, r: nat, ids: seq<nat>, now: int)
    requires r < |db.accounts| && SourceIds(db.sources, ids) && ids != [] && SourceIds(db.sources, ids[1..])
    ensures CreditFrom(db, r, ids, now) == CreditFrom(FirstTurn(db, r, ids[0], now), r, ids[1..], now)
  {
    CreditFromDone(db, r, ids, now);
    CreditFromDone(db, r, ids[1..], now);
  }

  lemma RestUsable(db: Db, r: nat, ids: seq<nat>)
    requires r < |db.accounts| && SourceIds(db.sources, ids) && Distinct(ids) && ids != []
    requires forall k :: 0 <= k < |ids| ==> Usable(db, r, ids[k])
    ensures SourceIds(db.sources, ids[1..]) && Distinct(ids[1..]) && ids[0] !in ids[1..]
    ensures forall k :: 0 <= k < |ids[1..]| ==> Usable(db, r, ids[1..][k])
    ensures Offers(db, r, ids)[1..] == Offers(db, r, ids[1..])
  {
    assert forall k :: 0 <= k < |ids[1..]| ==> ids[1..][k] == ids[k + 1];
  }

  /** The first turn takes what the fill says, and leaves what the fill leaves. */
  lemma FirstUse(db: Db, r: nat, ids: seq<nat>, now: int)
    requires r < |db.accounts| && SourceIds(db.sources, ids) && ids != []
    requires Usable(db, r, ids[0]) && Outstanding(db.accounts[r]) >= 0
    ensures var due := Outstanding(db.accounts[r]);
            var t := Fill(due, Offers(db, r, ids))[0];
            var d := FirstTurn(db, r, ids[0], now);
            && t >= 0
            && d == (if t > 0 then Attach(db, CreditRow(ids[0], r, t, true, now, Auto(ids[0], r))) else db)
            && Outstanding(d.accounts[r]) == due - t
  {}

  lemma CreditFromDone(db: Db, r: nat, ids: seq<nat>, now: int)
    requires r < |db.accounts| && SourceIds(db.sources, ids)
    ensures Outstanding(db.accounts[r]) <= 0 ==> CreditFrom(db, r, ids, now) == db
  {}

  lemma {:induction false} SameOffers(db: Db, d: Db, r: nat, m: nat, ids: seq<nat>, now: int)
    requires r < |db.accounts| && m < |db.sources| && SourceIds(db.sources, ids) && m !in ids
    requires d == db || d == UseCredit(db, r, m, now)
    ensures Offers(d, r, ids) == Offers(db, r, ids)
    ensures forall k :: 0 <= k < |ids| && Usable(db, r, ids[k]) ==> Usable(d, r, ids[k])
  {
    if ids != [] {
      SameOffers(db, d, r, m, ids[1..], now);
      assert ids[0] in ids;
      assert KeyUsed(d, Auto(ids[0], r)) <==> KeyUsed(db, Auto(ids[0], r)) by {
        assert forall k :: 0 <= k < |db.allocs| ==> d.allocs[k] == db.allocs[k];
      }
      forall k | 0 <= k < |ids| && Usable(db, r, ids[k]) ensures Usable(d, r, ids[k]) {
        assert ids[k] in ids;
      }
    }
  }

  /**
   A new receivable uses the posted credits of its customer oldest first, as the greedy fill
   of what it owes; a credit whose `auto:` key was already taken offers nothing.
   */
  lemma AutoCreditIsGreedy(db: Db, r: nat, now: int)
    returns (ids: seq<nat>, takes: seq<int>)
    requires r < |db.accounts| && db.accounts[r].currency == CNY && !db.accounts[r].voided
    requires Outstanding(db.accounts[r]) >= 0
    ensures ids == CreditIds(db, r)
    ensures IsGreedy(Outstanding(db.accounts[r]), Offers(db, r, ids), takes)
    ensures Gathered(db, AutoCredit(db, r, now), r, ids, takes, now)
  {
    ids := CreditIds(db, r);
    var due, offers := Outstanding(db.accounts[r]), Offers(db, r, ids);
    takes := Fill(due, offers);
    CreditIdsAreUsable(db, r);
    FillIsGreedy(due, offers);
    CreditFromIsFill(db, r, ids, now);
    AutoCreditRunsTheLoop(db, r, now);
  }

  lemma CreditIdsAreUsable(db: Db, r: nat)
    requires r < |db.accounts|
    ensures var ids := CreditIds(db, r);
            SourceIds(db.sources, ids) && forall k :: 0 <= k < |ids| ==> Usable(db, r, ids[k])
  {
    var ids := CreditIds(db, r);
    forall k | 0 <= k < |ids| ensures Usable(db, r, ids[k]) {
      assert ids[k] in ids;
    }
  }

  lemma AutoCreditRunsTheLoop(db: Db, r: nat, now: int)
    requires r < |db.accounts| && db.accounts[r].currency == CNY && !db.accounts[r].voided
    ensures AutoCredit(db, r, now) == CreditFrom(db, r, CreditIds(db, r), now)
  {}

  /**
   With no `auto:` key taken, the receivable ends settled or every usable credit used up;
   with one taken, this can fail: see TakenKeyBlocksCredit.
   */
  lemma AutoCreditIsMaximal(db: Db, r: nat, now: int)
    requires r < |db.accounts| && db.accounts[r].currency == CNY && !db.accounts[r].voided
    requires Outstanding(db.accounts[r]) >= 0
    ensures var d := AutoCredit(db, r, now);
            Outstanding(d.accounts[r]) == 0
            || forall m: nat :: m < |db.sources| && Usable(db, r, m) && !KeyUsed(db, Auto(m, r))
                                ==> Remaining(d.sources[m]) == 0
  {
    var ids, takes := AutoCreditIsGreedy(db, r, now);
    var offers := Offers(db, r, ids);
    GreedyStops(Outstanding(db.accounts[r]), offers, takes);
    var d := AutoCredit(db, r, now);
    if takes == offers {
      forall m: nat | m < |db.sources| && Usable(db, r, m) && !KeyUsed(db, Auto(m, r))
        ensures Remaining(d.sources[m]) == 0
      {
        assert m in ids;
        var k :| 0 <= k < |ids| && ids[k] == m;
        assert takes[k] == Remaining(db.sources[m]);
      }
    }
  }

  /** Nothing more could be taken: the receivable is settled, or every usable credit is used up. */
  ghost predicate NothingLeftToTake(db: Db, d: Db, r: nat)
    requires r < |db.accounts| == |d.accounts| && |d.sources| == |db.sources|
  {
    Outstanding(d.accounts[r]) == 0 || forall m: nat :: m < |db.sources| && Usable(db, r, m) ==> Remaining(d.sources[m]) == 0
  }

  /** The loop takes all that could be taken exactly when no usable credit has its key taken, or the
      others suffice. */
  lemma AutoCreditIsMaximalExactlyWhen(db: Db, r: nat, now: int)
    requires r < |db.accounts| && db.accounts[r].currency == CNY && !db.accounts[r].voided
    requires Outstanding(db.accounts[r]) >= 0
    ensures |AutoCredit(db, r, now).accounts| == |db.accounts| && |AutoCredit(db, r, now).sources| == |db.sources|
    ensures NothingLeftToTake(db, AutoCredit(db, r, now), r) <==>
              (forall m: nat :: m < |db.sources| && Usable(db, r, m) ==> !KeyUsed(db, Auto(m, r)))
              || Sum(Offers(db, r, CreditIds(db, r))) >= Outstanding(db.accounts[r])
  {
    var ids, takes := AutoCreditIsGreedy(db, r, now);
    var offers := Offers(db, r, ids);
    AutoCreditIsMaximal(db, r, now);
    GreedyStops(Outstanding(db.accounts[r]), offers, takes);
    var d := AutoCredit(db, r, now);
    if Sum(offers) < Outstanding(db.accounts[r]) {
      forall m: nat | m < |db.sources| && Usable(db, r, m) && KeyUsed(db, Auto(m, r))
        ensures Remaining(d.sources[m]) > 0
      {
        assert m in ids;
        var k :| 0 <= k < |ids| && ids[k] == m;
        assert takes[k] == 0;
      }
    }
  }

  const CREDIT := NewCredit(0, 7, 100, 1, 0).(status := Live)
  const DEBT := Account(Receivable, 7, CNY, 10, 0, 0, None, 0, false)

  /** A posted credit of 100 and two receivables of 10, before and after the first is settled with 10 of it. */
  const OPEN_BOOK := Db([CREDIT], [DEBT, DEBT], [], [])
  const TAKEN_KEY := Db([CREDIT.(matched := 10)], [DEBT.(matched := 10), DEBT],
                        [CreditRow(0, 0, 10, false, 0, Auto(0, 1))], [])

  lemma OpenBookIsInOrder()
    ensures Inv(OPEN_BOOK)
  {}

  lemma ManualCallTakesTheKey()
    ensures CreditAllocate(OPEN_BOOK, 0, 0, Some(10), Auto(0, 1), 0) == Ok((TAKEN_KEY, 0)) && Inv(TAKEN_KEY)
  {
    OpenBookIsInOrder();
    var row := CreditRow(0, 0, 10, false, 0, Auto(0, 1));
    assert KeyRow([], Auto(0, 1)).None?;
    assert Attach(OPEN_BOOK, row) == TAKEN_KEY;
    CreditAllocateKeepsInv(OPEN_BOOK, 0, 0, Some(10), Auto(0, 1), 0);
  }

  /** A manual allocation that was sent with the key `auto:0:1` keeps credit 0 from receivable 1. */
  lemma TakenKeyBlocksCredit()
    ensures Inv(OPEN_BOOK) && CreditAllocate(OPEN_BOOK, 0, 0, Some(10), Auto(0, 1), 0) == Ok((TAKEN_KEY, 0))
    ensures Inv(TAKEN_KEY) && Usable(TAKEN_KEY, 1, 0)
    ensures AutoCredit(TAKEN_KEY, 1, 5) == TAKEN_KEY && Outstanding(TAKEN_KEY.accounts[1]) == 10
  {
    OpenBookIsInOrder();
    ManualCallTakesTheKey();
    var db := TAKEN_KEY;
    assert db.allocs[0].key == Some(Auto(0, 1));
    var ids := CreditIds(db, 1);
    OrderIsUnique(FirstPosted(db.sources), ids, [0]);
    assert UseCredit(db, 1, 0, 5) == db;
    assert CreditFrom(db, 1, ids, 5) == CreditFrom(db, 1, [], 5);
  }

  // ---------- The invariant ----------

  lemma CreditAllocateKeepsInv(db: Db, m: nat, r: nat, amount: Option<int>, key: Key, now: int)
    requires Inv(db)
    ensures var res := CreditAllocate(db, m, r, amount, key, now); res.Ok? ==> Inv(res.value.0)
  {
    var res := CreditAllocate(db, m, r, amount, key, now);
    if res.Ok? && KeyRow(db.allocs, key).None? {
      assert SourceOk(db, m);
      AttachKeepsInv(db, res.value.0.allocs[|db.allocs|]);
    }
  }

  lemma CreditReverseKeepsInv(db: Db, i: nat, reason: string, key: Key)
    requires Inv(db)
    ensures var res := CreditReverse(db, i, reason, key); res.Ok? ==> Inv(res.value.0)
  {
    var res := CreditReverse(db, i, reason, key);
    if res.Ok? && UndoRow(db.allocs, key).None? {
      DetachKeepsInv(db, i, Some(key), reason);
    }
  }

  lemma {:induction false} CreditFromKeepsInv(db: Db, r: nat, ids: seq<nat>, now: int)
    requires Inv(db) && r < |db.accounts| && SourceIds(db.sources, ids)
    requires db.accounts[r].side == Receivable
    ensures Inv(CreditFrom(db, r, ids, now))
    decreases ids
  {
    if ids != [] && Outstanding(db.accounts[r]) > 0 {
      var d := UseCredit(db, r, ids[0], now);
      if d != db {
        AttachKeepsInv(db, d.allocs[|db.allocs|]);
      }
      CreditFromKeepsInv(d, r, ids[1..], now);
    }
  }

  // ---------- Exactly once ----------

  /** In a lawful ledger a key or reversal key names one row. */
  lemma KeyRowIsTheRow(db: Db, i: nat)
    requires Inv(db) && i < |db.allocs|
    ensures db.allocs[i].key.Some? ==> KeyRow(db.allocs, db.allocs[i].key.value) == Some(i)
    ensures db.allocs[i].undoKey.Some? ==> UndoRow(db.allocs, db.allocs[i].undoKey.value) == Some(i)
  {}

  /** Allocating a credit and reversing that row restores every total; the row stays as a trace. */
  lemma CreditAllocateThenReverse(db: Db, m: nat, r: nat, amount: Option<int>, key: Key, now: int,
                                  reason: string, undo: Key)
    requires KeyRow(db.allocs, key).None? && UndoRow(db.allocs, undo).None? && reason != ""
    requires CreditAllocate(db, m, r, amount, key, now).Ok?
    ensures var done := CreditAllocate(db, m, r, amount, key, now).value;
            var back := CreditReverse(done.0, done.1, reason, undo);
            && done.1 == |db.allocs| && done.0.allocs[..done.1] == db.allocs
            && back.Ok? && back.value.1 == done.1
            && back.value.0.sources == db.sources && back.value.0.accounts == db.accounts
            && back.value.0.allocs[..done.1] == db.allocs
  {
    var done := CreditAllocate(db, m, r, amount, key, now).value;
    var i := |db.allocs|;
    assert done.0.allocs == db.allocs + [done.0.allocs[i]];
    assert UndoRow(done.0.allocs, undo).None?;
    assert CreditReverse(done.0, i, reason, undo) == Ok((Detach(done.0, i, Some(undo), reason), i));
    var back := CreditReverse(done.0, done.1, reason, undo).value.0;
    assert back.sources == db.sources;
    assert back.accounts == db.accounts;
  }
}
