/**
 Supplier (AP) credit memos: create, post, reject and resubmit. Posting a credit against a
 payable that is already paid first moves paid money back to supplier prepayment, by
 reversing the newest allocations and re-attaching what must stay.
 */
module ApCredit {
  import opened Base
  import opened Greedy
  import opened LedgerRows
  import opened Ordering

  datatype PostError =
    | MemoNotFound | NotPending | PayableInactive
    | ExceedsOriginal        // credit above the original amount
    | PaymentsChanged        // an allocation whose payment was not locked
    | MissingAllocation      // paid money with no allocation to reverse
    | ExceedsOutstanding     // the final re-check

  const RELEASED := "AP credit memo posted"

  // ---------- The rows to release, newest first ----------

  predicate Newer(rows: seq<Alloc>, i: nat, j: nat) {
    && i < |rows| && j < |rows|
    && if rows[i].createdAt != rows[j].createdAt then rows[i].createdAt > rows[j].createdAt else i > j
  }

  function NewestFirst(rows: seq<Alloc>): Precedes {
    (i: nat, j: nat) => Newer(rows, i, j)
  }

  ghost predicate RowIds(rows: seq<Alloc>, ids: seq<nat>) {
    forall k :: 0 <= k < |ids| ==> ids[k] < |rows|
  }

  predicate Pays(row: Alloc, payable: nat) {
    !row.reversed && row.account == payable
  }

  function PaidAmong(rows: seq<Alloc>, payable: nat, n: nat): (ids: seq<nat>)
    requires n <= |rows|
    ensures forall i: nat :: i in ids <==> i < n && Pays(rows[i], payable)
    ensures Ordered(NewestFirst(rows), ids)
  {
    if n == 0 then []
    else
      var ids := PaidAmong(rows, payable, n - 1);
      if Pays(rows[n - 1], payable) then
        InsertKeepsOrder(NewestFirst(rows), n - 1, ids);
        Insert(NewestFirst(rows), n - 1, ids)
      else ids
  }

  function PaidRows(rows: seq<Alloc>, payable: nat): (ids: seq<nat>)
    ensures RowIds(rows, ids) && Distinct(ids) && Ordered(NewestFirst(rows), ids)
    ensures forall i: nat :: i in ids <==> i < |rows| && Pays(rows[i], payable)
  {
    var ids := PaidAmong(rows, payable, |rows|);
    assert forall i :: 0 <= i < |ids| ==> ids[i] in ids;
    ids
  }

  function Amounts(rows: seq<Alloc>, ids: seq<nat>): (xs: seq<int>)
    requires RowIds(rows, ids)
    ensures |xs| == |ids|
    ensures forall k :: 0 <= k < |ids| ==> xs[k] == rows[ids[k]].amount
  {
    if ids == [] then [] else [rows[ids[0]].amount] + Amounts(rows, ids[1..])
  }

  lemma {:induction false} InsertAddsAmount(rows: seq<Alloc>, before: Precedes, id: nat, ids: seq<nat>)
    requires RowIds(rows, ids) && id < |rows|
    ensures RowIds(rows, Insert(before, id, ids))
    ensures Sum(Amounts(rows, Insert(before, id, ids))) == Sum(Amounts(rows, ids)) + rows[id].amount
  {
    if ids == [] || before(id, ids[0]) {
      assert ([id] + ids)[1..] == ids;
    } else {
      InsertAddsAmount(rows, before, id, ids[1..]);
      var rest := Insert(before, id, ids[1..]);
      assert ([ids[0]] + rest)[1..] == rest;
    }
  }

  lemma HeldNext(rows: seq<Alloc>, payable: nat, n: nat)
    requires 0 < n <= |rows|
    ensures Held(rows[..n], OfAccount(payable)) ==
              Held(rows[..n - 1], OfAccount(payable)) + if Pays(rows[n - 1], payable) then rows[n - 1].amount else 0
  {
    assert rows[..n][..n - 1] == rows[..n - 1];
  }

  lemma PaidNext(rows: seq<Alloc>, payable: nat, n: nat)
    requires 0 < n <= |rows|
    ensures PaidAmong(rows, payable, n) ==
              if Pays(rows[n - 1], payable) then Insert(NewestFirst(rows), n - 1, PaidAmong(rows, payable, n - 1))
              else PaidAmong(rows, payable, n - 1)
  {}

  /** The rows found add up to the running total of the payable. */
  lemma {:induction false} PaidAmountsAreHeld(rows: seq<Alloc>, payable: nat, n: nat)
    requires n <= |rows|
    ensures RowIds(rows, PaidAmong(rows, payable, n))
    ensures Sum(Amounts(rows, PaidAmong(rows, payable, n))) == Held(rows[..n], OfAccount(payable))
  {
    if n > 0 {
      PaidAmountsAreHeld(rows, payable, n - 1);
      PaidNext(rows, payable, n);
      PaidAmountsStep(rows, payable, n, PaidAmong(rows, payable, n - 1), PaidAmong(rows, payable, n));
    }
  }

  lemma PaidAmountsStep(rows: seq<Alloc>, payable: nat, n: nat, ids: seq<nat>, now: seq<nat>)
    requires 0 < n <= |rows| && RowIds(rows, ids)
    requires Sum(Amounts(rows, ids)) == Held(rows[..n - 1], OfAccount(payable))
    requires now == if Pays(rows[n - 1], payable) then Insert(NewestFirst(rows), n - 1, ids) else ids
    ensures RowIds(rows, now) && Sum(Amounts(rows, now)) == Held(rows[..n], OfAccount(payable))
  {
    HeldNext(rows, payable, n);
    if Pays(rows[n - 1], payable) {
      InsertAddsAmount(rows, NewestFirst(rows), n - 1, ids);
    }
  }

  // ---------- The release loop ----------

  /** What is left of a row that is released in part goes into one replacement row. */
  function KeptRow(row: Alloc, keep: int, now: int): Alloc {
    Alloc(row.source, row.account, keep, row.auto, now, false, None, None, "")
  }

  function ReleaseOne(db: Db, i: nat, release: int, now: int): (d: Db)
    requires i < |db.allocs|
    requires db.allocs[i].source < |db.sources| && db.allocs[i].account < |db.accounts|
    ensures d.memos == db.memos && |d.allocs| >= |db.allocs| && |d.sources| == |db.sources| && |d.accounts| == |db.accounts|
    ensures forall k :: 0 <= k < |db.allocs| && k != i ==> d.allocs[k] == db.allocs[k]
  {
    var row := db.allocs[i];
    var d := Detach(db, i, None, RELEASED);
    if row.amount - release > 0 then Attach(d, KeptRow(row, row.amount - release, now)) else d
  }

  ghost predicate Linked(db: Db, ids: seq<nat>) {
    && RowIds(db.allocs, ids) && Distinct(ids)
    && forall k :: 0 <= k < |ids| ==>
                     && db.allocs[ids[k]].source < |db.sources|
                     && db.allocs[ids[k]].account < |db.accounts|
  }

  function ReleaseFrom(db: Db, locked: set<nat>, ids: seq<nat>, left: int, now: int): (r: Result<Db, PostError>)
    requires Linked(db, ids)
    ensures r.Ok? ==> |r.value.sources| == |db.sources| && |r.value.accounts| == |db.accounts| && r.value.memos == db.memos
    decreases ids
  {
    if left <= 0 then Ok(db)
    else if ids == [] then Err(MissingAllocation)
    else if db.allocs[ids[0]].source !in locked then Err(PaymentsChanged)
    else
      var release := Min(left, db.allocs[ids[0]].amount);
      var d := ReleaseOne(db, ids[0], release, now);
      assert forall k :: 0 <= k < |ids| - 1 ==> ids[1..][k] == ids[k + 1];
      ReleaseFrom(d, locked, ids[1..], left - release, now)
  }

  /** How much of the takes came out of one payment. */
  function TakenFrom(rows: seq<Alloc>, ids: seq<nat>, takes: seq<int>, payment: nat): int
    requires RowIds(rows, ids) && |takes| == |ids|
  {
    if ids == [] then 0
    else (if rows[ids[0]].source == payment then takes[0] else 0)
         + TakenFrom(rows, ids[1..], takes[1..], payment)
  }

  function Replacements(rows: seq<Alloc>, ids: seq<nat>, takes: seq<int>, now: int): seq<Alloc>
    requires RowIds(rows, ids) && |takes| == |ids|
  {
    if ids == [] then []
    else
      var row := rows[ids[0]];
      (if 0 < takes[0] < row.amount then [KeptRow(row, row.amount - takes[0], now)] else [])
      + Replacements(rows, ids[1..], takes[1..], now)
  }

  function ReversedRow(row: Alloc): Alloc {
    row.(reversed := true, undoKey := None, undoReason := RELEASED)
  }

  /** The allocation rows after releasing the takes of some of them. */
  ghost predicate ReleasedRows(rows: seq<Alloc>, after: seq<Alloc>, ids: seq<nat>, takes: seq<int>, now: int)
    requires RowIds(rows, ids) && |takes| == |ids|
  {
    && |after| >= |rows|
    && after[|rows|..] == Replacements(rows, ids, takes, now)
    && (forall k :: 0 <= k < |ids| ==>
          after[ids[k]] == if takes[k] > 0 then ReversedRow(rows[ids[k]]) else rows[ids[k]])
    && (forall i: nat :: i < |rows| && i !in ids ==> after[i] == rows[i])
  }

  /** The running totals after the release: the payable's, and each payment's own share. */
  ghost predicate ReleasedTotals(db: Db, d: Db, payable: nat, ids: seq<nat>, takes: seq<int>)
    requires RowIds(db.allocs, ids) && |takes| == |ids| && payable < |db.accounts|
  {
    && d.memos == db.memos
    && d.accounts == db.accounts[payable :=
                       db.accounts[payable].(matched := db.accounts[payable].matched - Sum(takes))]
    && |d.sources| == |db.sources|
    && (forall s :: 0 <= s < |db.sources| ==>
          d.sources[s] == db.sources[s].(
                          matched := db.sources[s].matched - TakenFrom(db.allocs, ids, takes, s)))
  }

  ghost predicate Released(db: Db, d: Db, payable: nat, ids: seq<nat>, takes: seq<int>, now: int)
    requires RowIds(db.allocs, ids) && |takes| == |ids| && payable < |db.accounts|
  {
    && ReleasedTotals(db, d, payable, ids, takes)
    && ReleasedRows(db.allocs, d.allocs, ids, takes, now)
  }

  lemma {:induction false} SameRows(before: seq<Alloc>, after: seq<Alloc>, ids: seq<nat>, takes: seq<int>, now: int)
    requires RowIds(before, ids) && RowIds(after, ids) && |takes| == |ids|
    requires forall k :: 0 <= k < |ids| ==> after[ids[k]] == before[ids[k]]
    ensures Amounts(after, ids) == Amounts(before, ids)
    ensures Replacements(after, ids, takes, now) == Replacements(before, ids, takes, now)
    ensures forall s: nat :: TakenFrom(after, ids, takes, s) == TakenFrom(before, ids, takes, s)
  {
    if ids != [] {
      SameRows(before, after, ids[1..], takes[1..], now);
    }
  }

  lemma {:induction false} NothingReleased(db: Db, payable: nat, ids: seq<nat>, takes: seq<int>, now: int)
    requires RowIds(db.allocs, ids) && payable < |db.accounts|
    requires |takes| == |ids| && forall k :: 0 <= k < |ids| ==> takes[k] == 0
    ensures Released(db, db, payable, ids, takes, now)
  {
    SumOfZeros(takes);
    NothingTaken(db.allocs, ids, takes, now);
    assert db.accounts[payable := db.accounts[payable].(matched := db.accounts[payable].matched - 0)] == db.accounts;
  }

  lemma {:induction false} NothingTaken(rows: seq<Alloc>, ids: seq<nat>, takes: seq<int>, now: int)
    requires RowIds(rows, ids) && |takes| == |ids|
    requires forall k :: 0 <= k < |ids| ==> takes[k] == 0
    ensures Replacements(rows, ids, takes, now) == []
    ensures forall s: nat :: TakenFrom(rows, ids, takes, s) == 0
  {
    if ids != [] {
      NothingTaken(rows, ids[1..], takes[1..], now);
    }
  }

  lemma {:induction false} FillNothing(demands: seq<int>)
    ensures forall k :: 0 <= k < |demands| ==> Fill(0, demands)[k] == 0
  {
    if demands != [] {
      FillNothing(demands[1..]);
    }
  }

  /** Both writes of one loop turn keep the invariant: after the reversal, and after the re-attachment. */
  lemma ReleaseOneKeepsInv(db: Db, i: nat, release: int, now: int)
    requires Inv(db) && i < |db.allocs| && !db.allocs[i].reversed && db.allocs[i].key.None?
    requires 0 < release <= db.allocs[i].amount
    ensures RowOk(db, i)
    ensures Inv(Detach(db, i, None, RELEASED)) && Inv(ReleaseOne(db, i, release, now))
  {
    assert RowOk(db, i);
    var row := db.allocs[i];
    DetachKeepsInv(db, i, None, RELEASED);
    var d := Detach(db, i, None, RELEASED);
    if row.amount - release > 0 {
      assert SourceOk(db, row.source) && AccountOk(db, row.account);
      forall k | 0 <= k < |d.allocs|
        ensures d.allocs[k].reversed || d.allocs[k].source != row.source || d.allocs[k].account != row.account
      {
        assert RowOk(db, k) && (k != i ==> d.allocs[k] == db.allocs[k]);
      }
      AttachKeepsInv(d, KeptRow(row, row.amount - release, now));
    }
  }

  /** The effect of one loop turn: the release leaves both totals, the rest stays attached. */
  lemma ReleaseOneEffect(db: Db, i: nat, release: int, now: int)
    requires i < |db.allocs|
    requires db.allocs[i].source < |db.sources| && db.allocs[i].account < |db.accounts|
    requires 0 < release <= db.allocs[i].amount
    ensures var d, row := ReleaseOne(db, i, release, now), db.allocs[i];
            var s, a := db.sources[row.source], db.accounts[row.account];
            && d.memos == db.memos
            && d.sources == db.sources[row.source := s.(matched := s.matched - release)]
            && d.accounts == db.accounts[row.account := a.(matched := a.matched - release)]
            && d.allocs == db.allocs[i := ReversedRow(row)]
                           + if release < row.amount then [KeptRow(row, row.amount - release, now)] else []
  {
    var d, row := ReleaseOne(db, i, release, now), db.allocs[i];
    var s, a := db.sources[row.source], db.accounts[row.account];
    assert d.sources == db.sources[row.source := s.(matched := s.matched - release)];
    assert d.accounts == db.accounts[row.account := a.(matched := a.matched - release)];
  }

  function AfterOne(rows: seq<Alloc>, i: nat, release: int, now: int): (r: seq<Alloc>)
    requires i < |rows|
    ensures |r| >= |rows| && forall k :: 0 <= k < |rows| && k != i ==> r[k] == rows[k]
  {
    rows[i := ReversedRow(rows[i])]
    + if release < rows[i].amount then [KeptRow(rows[i], rows[i].amount - release, now)] else []
  }

  /** The rows still to be looked at are replaced alike before and after the first one is released. */
  lemma RestIsReplacedAlike(rows: seq<Alloc>, ids: seq<nat>, takes: seq<int>, now: int)
    requires RowIds(rows, ids) && Distinct(ids) && |takes| == |ids| > 0
    requires RowIds(AfterOne(rows, ids[0], takes[0], now), ids[1..])
    ensures Replacements(AfterOne(rows, ids[0], takes[0], now), ids[1..], takes[1..], now)
         == Replacements(rows, ids[1..], takes[1..], now)
  {
    var mid := AfterOne(rows, ids[0], takes[0], now);
    forall k | 0 <= k < |ids[1..]| ensures mid[ids[1..][k]] == rows[ids[1..][k]] {
      assert ids[1..][k] == ids[k + 1] != ids[0];
    }
    SameRows(rows, mid, ids[1..], takes[1..], now);
  }

  /** Once a row is split nothing more is taken: its replacement is the only new row. */
  lemma SplitIsLast(rows: seq<Alloc>, after: seq<Alloc>, ids: seq<nat>, takes: seq<int>, now: int)
    requires RowIds(rows, ids) && |takes| == |ids| > 0
    requires 0 < takes[0] < rows[ids[0]].amount && forall k :: 0 < k < |takes| ==> takes[k] == 0
    requires |after| > |rows| && after[|rows|] == KeptRow(rows[ids[0]], rows[ids[0]].amount - takes[0], now)
    requires after[|rows| + 1..] == Replacements(rows, ids[1..], takes[1..], now)
    ensures after[|rows|..] == Replacements(rows, ids, takes, now)
  {
    NothingTaken(rows, ids[1..], takes[1..], now);
    assert after[|rows|..] == [after[|rows|]];
  }

  lemma WholeLeavesNothing(rows: seq<Alloc>, ids: seq<nat>, takes: seq<int>, now: int)
    requires RowIds(rows, ids) && |takes| == |ids| > 0 && takes[0] == rows[ids[0]].amount
    ensures Replacements(rows, ids, takes, now) == Replacements(rows, ids[1..], takes[1..], now)
  {
    assert [] + Replacements(rows, ids[1..], takes[1..], now) == Replacements(rows, ids[1..], takes[1..], now);
  }

  /** The replacement rows: one for a split, which is then the only one, and none before it. */
  lemma ReplacementsStep(rows: seq<Alloc>, after: seq<Alloc>, ids: seq<nat>, takes: seq<int>, now: int)
    requires RowIds(rows, ids) && Distinct(ids) && |takes| == |ids| > 0
    requires 0 < takes[0] <= rows[ids[0]].amount
    requires takes[0] < rows[ids[0]].amount ==> forall k :: 0 < k < |takes| ==> takes[k] == 0
    requires RowIds(AfterOne(rows, ids[0], takes[0], now), ids[1..])
    requires var mid := AfterOne(rows, ids[0], takes[0], now);
             && |after| >= |mid| && after[|mid|..] == Replacements(mid, ids[1..], takes[1..], now)
             && (|mid| > |rows| ==> after[|rows|] == mid[|rows|])
    ensures |after| >= |rows| && after[|rows|..] == Replacements(rows, ids, takes, now)
  {
    RestIsReplacedAlike(rows, ids, takes, now);
    if takes[0] < rows[ids[0]].amount {
      SplitIsLast(rows, after, ids, takes, now);
    } else {
      WholeLeavesNothing(rows, ids, takes, now);
    }
  }

  lemma RowsStep(rows: seq<Alloc>, after: seq<Alloc>, ids: seq<nat>, takes: seq<int>, now: int)
    requires RowIds(rows, ids) && Distinct(ids) && |takes| == |ids| > 0
    requires 0 < takes[0] <= rows[ids[0]].amount
    requires takes[0] < rows[ids[0]].amount ==> forall k :: 0 < k < |takes| ==> takes[k] == 0
    requires RowIds(AfterOne(rows, ids[0], takes[0], now), ids[1..])
    requires ReleasedRows(AfterOne(rows, ids[0], takes[0], now), after, ids[1..], takes[1..], now)
    ensures ReleasedRows(rows, after, ids, takes, now)
  {
    var rest, more := ids[1..], takes[1..];
    var mid := AfterOne(rows, ids[0], takes[0], now);
    assert ids[0] !in rest;
    assert |mid| > |rows| ==> |rows| !in rest && after[|rows|] == mid[|rows|];
    ReplacementsStep(rows, after, ids, takes, now);
    forall k | 0 <= k < |ids|
      ensures after[ids[k]] == if takes[k] > 0 then ReversedRow(rows[ids[k]]) else rows[ids[k]]
    {
      if k > 0 {
        assert ids[k] == rest[k - 1] && takes[k] == more[k - 1];
      }
    }
    forall i: nat | i < |rows| && i !in ids ensures after[i] == rows[i] {
      assert i !in rest && i != ids[0];
    }
  }

  lemma TotalsStep(db: Db, d: Db, e: Db, payable: nat, ids: seq<nat>, takes: seq<int>)
    requires RowIds(db.allocs, ids) && |takes| == |ids| > 0 && payable < |db.accounts|
    requires db.allocs[ids[0]].source < |db.sources|
    requires d.memos == db.memos
    requires var p := db.allocs[ids[0]].source;
             d.sources == db.sources[p := db.sources[p].(matched := db.sources[p].matched - takes[0])]
    requires d.accounts == db.accounts[payable :=
                             db.accounts[payable].(matched := db.accounts[payable].matched - takes[0])]
    requires RowIds(d.allocs, ids[1..])
    requires forall k :: 0 <= k < |ids| - 1 ==> d.allocs[ids[1..][k]] == db.allocs[ids[1..][k]]
    requires ReleasedTotals(d, e, payable, ids[1..], takes[1..])
    ensures ReleasedTotals(db, e, payable, ids, takes)
  {
    SameRows(db.allocs, d.allocs, ids[1..], takes[1..], 0);
    assert e.accounts == db.accounts[payable :=
        db.accounts[payable].(matched := db.accounts[payable].matched - Sum(takes))];
  }

  lemma {:induction false} ReleaseFromSucceeds(db: Db, payable: nat, locked: set<nat>, ids: seq<nat>, left: int, now: int)
    requires Inv(db) && Linked(db, ids) && Releasable(db, payable, locked, ids)
    requires 0 <= left <= Sum(Amounts(db.allocs, ids))
    ensures var r := ReleaseFrom(db, locked, ids, left, now); r.Ok? && Inv(r.value)
    decreases ids
  {
    if left > 0 {
      var release := Min(left, db.allocs[ids[0]].amount);
      var d, rest := ReleaseOne(db, ids[0], release, now), ids[1..];
      assert RowOk(db, ids[0]);
      ReleaseOneKeepsInv(db, ids[0], release, now);
      RestReleasable(db, d, payable, locked, ids, now);
      ReleaseFromSucceeds(d, payable, locked, rest, left - release, now);
    }
  }

  ghost predicate Releasable(db: Db, payable: nat, locked: set<nat>, ids: seq<nat>)
    requires RowIds(db.allocs, ids)
  {
    && payable < |db.accounts|
    && forall k :: 0 <= k < |ids| ==>
         var row := db.allocs[ids[k]];
         Pays(row, payable) && row.key.None? && row.amount > 0 && row.source in locked
  }

  lemma RestReleasable(db: Db, d: Db, payable: nat, locked: set<nat>, ids: seq<nat>, now: int)
    requires Linked(db, ids) && ids != [] && Releasable(db, payable, locked, ids)
    requires |d.sources| == |db.sources| && |d.accounts| == |db.accounts| && |d.allocs| >= |db.allocs|
    requires forall k :: 0 <= k < |db.allocs| && k != ids[0] ==> d.allocs[k] == db.allocs[k]
    ensures Linked(d, ids[1..]) && Releasable(d, payable, locked, ids[1..])
    ensures Amounts(d.allocs, ids[1..]) == Amounts(db.allocs, ids)[1..]
    ensures Sum(Amounts(d.allocs, ids[1..])) >= 0
  {
    var rest := ids[1..];
    forall k | 0 <= k < |rest| ensures rest[k] == ids[k + 1] && d.allocs[rest[k]] == db.allocs[rest[k]] {}
    SameRows(db.allocs, d.allocs, rest, seq(|rest|, _ => 0), now);
    SumNonNegative(Amounts(d.allocs, rest));
  }

  /** One turn of the loop in front of the turns that follow. */
  lemma ReleasedStep(db: Db, e: Db, payable: nat, ids: seq<nat>, takes: seq<int>, now: int)
    requires Linked(db, ids) && |takes| == |ids| > 0 && payable < |db.accounts|
    requires db.allocs[ids[0]].account == payable && 0 < takes[0] <= db.allocs[ids[0]].amount
    requires takes[0] < db.allocs[ids[0]].amount ==> forall k :: 0 < k < |takes| ==> takes[k] == 0
    requires RowIds(ReleaseOne(db, ids[0], takes[0], now).allocs, ids[1..])
    requires Released(ReleaseOne(db, ids[0], takes[0], now), e, payable, ids[1..], takes[1..], now)
    ensures Released(db, e, payable, ids, takes, now)
  {
    var d := ReleaseOne(db, ids[0], takes[0], now);
    ReleaseOneEffect(db, ids[0], takes[0], now);
    assert forall k :: 0 <= k < |ids| - 1 ==> ids[1..][k] == ids[k + 1];
    TotalsStep(db, d, e, payable, ids, takes);
    RowsStep(db.allocs, e.allocs, ids, takes, now);
  }

  /** What the first turn takes, and what the fill then says of the rest. */
  lemma FirstRelease(left: int, demands: seq<int>)
    requires 0 < left <= Sum(demands) && demands != [] && demands[0] > 0
    ensures var takes := Fill(left, demands);
            && takes[0] == Min(left, demands[0]) > 0
            && takes[1..] == Fill(left - takes[0], demands[1..])
            && (takes[0] < demands[0] ==> forall k :: 0 < k < |takes| ==> takes[k] == 0)
  {
    FillTail(left, demands);
    var takes := Fill(left, demands);
    if takes[0] < demands[0] {
      FillNothing(demands[1..]);
      assert forall k :: 0 < k < |takes| ==> takes[k] == takes[1..][k - 1];
    }
  }

  lemma {:induction false} ReleaseFromIsFill(db: Db, payable: nat, locked: set<nat>, ids: seq<nat>, left: int, now: int)
    requires Linked(db, ids) && Releasable(db, payable, locked, ids)
    requires 0 <= left <= Sum(Amounts(db.allocs, ids))
    requires ReleaseFrom(db, locked, ids, left, now).Ok?
    ensures Released(db, ReleaseFrom(db, locked, ids, left, now).value, payable, ids,
                     Fill(left, Amounts(db.allocs, ids)), now)
    decreases ids
  {
    var demands := Amounts(db.allocs, ids);
    var takes := Fill(left, demands);
    if left == 0 {
      FillNothing(demands);
      NothingReleased(db, payable, ids, takes, now);
    } else {
      FirstRelease(left, demands);
      var d := ReleaseOne(db, ids[0], takes[0], now);
      RestReleasable(db, d, payable, locked, ids, now);
      ReleaseFromIsFill(d, payable, locked, ids[1..], left - takes[0], now);
      ReleasedStep(db, ReleaseFrom(d, locked, ids[1..], left - takes[0], now).value, payable, ids, takes, now);
    }
  }

  // ---------- The memo operations ----------

  predicate HasOpenMemo(db: Db, order: nat) {
    exists m :: 0 <= m < |db.memos| && OpenMemo(db.memos[m]) && db.memos[m].order == order
  }

  predicate ActivePayable(db: Db, payable: nat) {
    && payable < |db.accounts| && db.accounts[payable].side == Payable
    && !db.accounts[payable].voided
  }

  /** A return with nothing to credit makes no memo; a second open memo is refused. */
  function CreateMemo(db: Db, order: nat, payable: nat, amount: int): (r: Result<Db, PostError>) {
    if !ActivePayable(db, payable) then Err(PayableInactive)
    else if amount <= 0 then Ok(db)
    else if HasOpenMemo(db, order) then Err(NotPending)
    else Ok(db.(memos := db.memos + [ApMemo(payable, order, amount, Pending)]))
  }

  function SetMemo(db: Db, m: nat, status: Status): Db
    requires m < |db.memos|
  {
    db.(memos := db.memos[m := db.memos[m].(status := status)])
  }

  function RejectMemo(db: Db, m: nat): (r: Result<Db, PostError>) {
    if m >= |db.memos| then Err(MemoNotFound)
    else if db.memos[m].status != Pending then Err(NotPending)
    else Ok(SetMemo(db, m, Rejected))
  }

  function ResubmitMemo(db: Db, m: nat): (r: Result<Db, PostError>) {
    if m >= |db.memos| then Err(MemoNotFound)
    else if db.memos[m].status != Rejected then Err(NotPending)
    else if HasOpenMemo(db, db.memos[m].order) then Err(NotPending)
    else if !ActivePayable(db, db.memos[m].payable) then Err(PayableInactive)
    else Ok(db.(memos := db.memos + [db.memos[m].(status := Pending)]))
  }

  /** The payments locked before the payable: those of its active allocations. */
  function LockedPayments(rows: seq<Alloc>, payable: nat): set<nat> {
    set i | 0 <= i < |rows| && Pays(rows[i], payable) :: rows[i].source
  }

  function Credit(db: Db, m: nat): Db
    requires m < |db.memos| && db.memos[m].payable < |db.accounts|
  {
    var memo := db.memos[m];
    var acc := db.accounts[memo.payable];
    SetMemo(db, m, Live).(accounts := db.accounts[memo.payable := acc.(credited := acc.credited + memo.amount)])
  }

  ghost predicate Wired(db: Db) {
    && (forall i :: 0 <= i < |db.allocs| ==> db.allocs[i].source < |db.sources| && db.allocs[i].account < |db.accounts|)
    && (forall m :: 0 <= m < |db.memos| ==> db.memos[m].payable < |db.accounts|)
  }

  lemma InvIsWired(db: Db)
    requires Inv(db)
    ensures Wired(db)
  {
    forall i | 0 <= i < |db.allocs| ensures db.allocs[i].source < |db.sources| && db.allocs[i].account < |db.accounts| {
      assert RowOk(db, i);
    }
    forall m | 0 <= m < |db.memos| ensures db.memos[m].payable < |db.accounts| {
      assert MemoOk(db, m);
    }
  }

  function Release(db: Db, payable: nat, amount: int, now: int): (r: Result<Db, PostError>)
    requires Wired(db) && payable < |db.accounts|
    ensures r.Ok? ==> |r.value.sources| == |db.sources| && |r.value.accounts| == |db.accounts| && r.value.memos == db.memos
  {
    var acc := db.accounts[payable];
    var debt := acc.original - acc.credited - amount;
    if debt < 0 then Err(ExceedsOriginal)
    else if acc.matched - debt <= 0 then Ok(db)
    else ReleaseFrom(db, LockedPayments(db.allocs, payable), PaidRows(db.allocs, payable), acc.matched - debt, now)
  }

  function PostMemo(db: Db, m: nat, now: int): (r: Result<Db, PostError>)
    requires Wired(db)
  {
    if m >= |db.memos| then Err(MemoNotFound)
    else if db.memos[m].status != Pending then Err(NotPending)
    else if !ActivePayable(db, db.memos[m].payable) then Err(PayableInactive)
    else
      var memo := db.memos[m];
      match Release(db, memo.payable, memo.amount, now)
      case Err(e) => Err(e)
      case Ok(d) =>
        if memo.amount > Outstanding(d.accounts[memo.payable]) then Err(ExceedsOutstanding)
        else Ok(Credit(d, m))
  }

  lemma MemoEditKeepsInv(db: Db, d: Db)
    requires Inv(db)
    requires d == db.(memos := d.memos) && OneOpenMemo(d)
    requires forall m :: 0 <= m < |d.memos| ==> MemoOk(d, m)
    requires forall a: nat :: Credits(d.memos, a) == Credits(db.memos, a)
    ensures Inv(d)
  {
    forall s | 0 <= s < |d.sources| ensures SourceOk(d, s) {
      assert SourceOk(db, s);
    }
    forall a | 0 <= a < |d.accounts| ensures AccountOk(d, a) {
      assert AccountOk(db, a);
    }
    forall i | 0 <= i < |d.allocs| ensures RowOk(d, i) {
      assert RowOk(db, i);
    }
  }

  lemma CreateMemoKeepsInv(db: Db, order: nat, payable: nat, amount: int)
    requires Inv(db)
    ensures var r := CreateMemo(db, order, payable, amount); r.Ok? ==> Inv(r.value)
  {
    var r := CreateMemo(db, order, payable, amount);
    if r.Ok? && amount > 0 {
      AppendMemoKeepsInv(db, ApMemo(payable, order, amount, Pending));
    }
  }

  lemma AppendMemoKeepsInv(db: Db, memo: ApMemo)
    requires Inv(db) && memo.status == Pending && memo.amount > 0
    requires ActivePayable(db, memo.payable) && !HasOpenMemo(db, memo.order)
    ensures Inv(db.(memos := db.memos + [memo]))
  {
    var d := db.(memos := db.memos + [memo]);
    forall a: nat ensures Credits(d.memos, a) == Credits(db.memos, a) {
      CreditsAppend(db.memos, memo, a);
    }
    forall m | 0 <= m < |d.memos| ensures MemoOk(d, m) {
      assert m < |db.memos| ==> MemoOk(db, m);
    }
    MemoEditKeepsInv(db, d);
  }

  lemma RejectMemoKeepsInv(db: Db, m: nat)
    requires Inv(db)
    ensures var r := RejectMemo(db, m); r.Ok? ==> Inv(r.value)
  {
    if RejectMemo(db, m).Ok? {
      var d := SetMemo(db, m, Rejected);
      forall a: nat ensures Credits(d.memos, a) == Credits(db.memos, a) {
        CreditsUpdate(db.memos, m, Rejected, a);
      }
      forall k | 0 <= k < |d.memos| ensures MemoOk(d, k) {
        assert MemoOk(db, k);
      }
      MemoEditKeepsInv(db, d);
    }
  }

  lemma ResubmitMemoKeepsInv(db: Db, m: nat)
    requires Inv(db)
    ensures var r := ResubmitMemo(db, m); r.Ok? ==> Inv(r.value)
  {
    if ResubmitMemo(db, m).Ok? {
      assert MemoOk(db, m);
      AppendMemoKeepsInv(db, db.memos[m].(status := Pending));
    }
  }

  lemma CreditKeepsInv(db: Db, m: nat)
    requires Inv(db) && m < |db.memos| && db.memos[m].status == Pending
    requires MemoOk(db, m) && db.memos[m].amount <= Outstanding(db.accounts[db.memos[m].payable])
    ensures Inv(Credit(db, m))
  {
    var d := Credit(db, m);
    forall s | 0 <= s < |d.sources| ensures SourceOk(d, s) {
      assert SourceOk(db, s);
    }
    forall a | 0 <= a < |d.accounts| ensures AccountOk(d, a) {
      assert AccountOk(db, a);
      CreditsUpdate(db.memos, m, Live, a);
    }
    forall i | 0 <= i < |d.allocs| ensures RowOk(d, i) {
      assert RowOk(db, i);
    }
    forall k | 0 <= k < |d.memos| ensures MemoOk(d, k) {
      assert MemoOk(db, k);
    }
  }

  // ---------- What posting achieves ----------

  /** How much paid money a credit of the given amount pushes back to prepayment. */
  function ToRelease(acc: Account, amount: int): int {
    Max(0, acc.matched - (acc.original - acc.credited - amount))
  }

  /** The release succeeds exactly when the credit fits the original; its other errors cannot occur. */
  lemma ReleaseIsExact(db: Db, payable: nat, amount: int, now: int)
    returns (ids: seq<nat>, takes: seq<int>)
    requires Inv(db) && Wired(db) && payable < |db.accounts| && db.accounts[payable].side == Payable
    requires amount > 0
    ensures ids == PaidRows(db.allocs, payable) && Linked(db, ids)
    ensures IsGreedy(ToRelease(db.accounts[payable], amount), Amounts(db.allocs, ids), takes)
            || db.accounts[payable].credited + amount > db.accounts[payable].original
    ensures var r := Release(db, payable, amount, now);
            if db.accounts[payable].credited + amount > db.accounts[payable].original
            then r == Err(ExceedsOriginal)
            else
              && r.Ok? && Inv(r.value) && |takes| == |ids|
              && Sum(takes) == ToRelease(db.accounts[payable], amount)
              && Released(db, r.value, payable, ids, takes, now)
  {
    ids := PaidRows(db.allocs, payable);
    var demands := Amounts(db.allocs, ids);
    var left := ToRelease(db.accounts[payable], amount);
    takes := Fill(left, demands);
    PaidRowsAreReleasable(db, payable);
    FillIsGreedy(left, demands);
    if db.accounts[payable].credited + amount <= db.accounts[payable].original {
      FittingReleaseIsFill(db, payable, amount, now);
    }
  }

  lemma FittingReleaseIsFill(db: Db, payable: nat, amount: int, now: int)
    requires Inv(db) && Wired(db) && payable < |db.accounts| && db.accounts[payable].side == Payable
    requires amount > 0 && db.accounts[payable].credited + amount <= db.accounts[payable].original
    ensures var r := Release(db, payable, amount, now);
            var ids := PaidRows(db.allocs, payable);
            && r.Ok? && Inv(r.value) && RowIds(db.allocs, ids)
            && Released(db, r.value, payable, ids,
                        Fill(ToRelease(db.accounts[payable], amount), Amounts(db.allocs, ids)), now)
  {
    var ids := PaidRows(db.allocs, payable);
    var left := ToRelease(db.accounts[payable], amount);
    var locked := LockedPayments(db.allocs, payable);
    PaidRowsAreReleasable(db, payable);
    ReleaseRunsTheLoop(db, payable, amount, now);
    ReleaseFromSucceeds(db, payable, locked, ids, left, now);
    ReleaseFromIsFill(db, payable, locked, ids, left, now);
  }

  /** Where nothing has to be released the loop has nothing to do either. */
  lemma ReleaseRunsTheLoop(db: Db, payable: nat, amount: int, now: int)
    requires Wired(db) && payable < |db.accounts|
    requires db.accounts[payable].credited + amount <= db.accounts[payable].original
    requires Linked(db, PaidRows(db.allocs, payable))
    ensures Release(db, payable, amount, now) ==
              ReleaseFrom(db, LockedPayments(db.allocs, payable), PaidRows(db.allocs, payable),
                          ToRelease(db.accounts[payable], amount), now)
  {}

  lemma PaidRowIsReleasable(db: Db, payable: nat, i: nat)
    requires Inv(db) && payable < |db.accounts| && db.accounts[payable].side == Payable
    requires i < |db.allocs| && Pays(db.allocs[i], payable)
    ensures db.allocs[i].key.None? && db.allocs[i].amount > 0
    ensures db.allocs[i].source in LockedPayments(db.allocs, payable)
  {
    assert RowOk(db, i);
  }

  lemma PaidRowsAreReleasable(db: Db, payable: nat)
    requires Inv(db) && Wired(db) && payable < |db.accounts| && db.accounts[payable].side == Payable
    ensures var ids := PaidRows(db.allocs, payable);
            && Linked(db, ids)
            && Releasable(db, payable, LockedPayments(db.allocs, payable), ids)
            && Sum(Amounts(db.allocs, ids)) == db.accounts[payable].matched >= 0
  {
    var ids := PaidRows(db.allocs, payable);
    assert AccountOk(db, payable);
    PaidAmountsAreHeld(db.allocs, payable, |db.allocs|);
    assert db.allocs[..|db.allocs|] == db.allocs;
    forall k | 0 <= k < |ids|
      ensures var row := db.allocs[ids[k]];
              && Pays(row, payable) && row.key.None? && row.amount > 0
              && row.source in LockedPayments(db.allocs, payable)
    {
      assert ids[k] in ids;
      PaidRowIsReleasable(db, payable, ids[k]);
    }
    SumNonNegative(Amounts(db.allocs, ids));
  }

  /**
   Posting a pending credit against an active payable succeeds exactly when credited + amount
   stays within the original. It then releases exactly max(0, paid - debt left), newest
   allocation first, and every other error of the code is unreachable.
   */
  lemma PostMemoIsExact(db: Db, m: nat, now: int)
    returns (ids: seq<nat>, takes: seq<int>)
    requires Inv(db) && Wired(db) && m < |db.memos| && db.memos[m].status == Pending
    requires ActivePayable(db, db.memos[m].payable)
    ensures var memo := db.memos[m];
            var acc := db.accounts[memo.payable];
            var r := PostMemo(db, m, now);
            && ids == PaidRows(db.allocs, memo.payable) && Linked(db, ids)
            && (r.Ok? <==> acc.credited + memo.amount <= acc.original)
            && (r.Err? ==> r.error == ExceedsOriginal)
            && (r.Ok? ==>
                  && Inv(r.value)
                  && IsGreedy(ToRelease(acc, memo.amount), Amounts(db.allocs, ids), takes)
                  && Sum(takes) == ToRelease(acc, memo.amount)
                  && var mid := Release(db, memo.payable, memo.amount, now);
                  && mid.Ok? && mid.value.memos == db.memos
                  && Released(db, mid.value, memo.payable, ids, takes, now)
                  && r.value == Credit(mid.value, m))
  {
    var memo := db.memos[m];
    assert MemoOk(db, m) && AccountOk(db, memo.payable);
    ids, takes := ReleaseIsExact(db, memo.payable, memo.amount, now);
    var r := Release(db, memo.payable, memo.amount, now);
    if r.Ok? {
      assert MemoOk(r.value, m);
      CreditKeepsInv(r.value, m);
    }
  }

  /** The same debt paid from the same payment, with the rest of the amount, as a new active row. */
  predicate IsTheRest(kept: Alloc, row: Alloc, take: int, now: int) {
    && kept.source == row.source && kept.account == row.account && kept.auto == row.auto
    && kept.amount + take == row.amount && kept.createdAt == now && !kept.reversed
    && kept.key == None && kept.undoKey == None && kept.undoReason == ""
  }

  lemma ReplacementIsTheRest(row: Alloc, take: int, now: int)
    ensures IsTheRest(KeptRow(row, row.amount - take, now), row, take, now)
  {}

  /** Every row before one that is taken from is taken whole. */
  ghost predicate InTurn(rows: seq<Alloc>, ids: seq<nat>, takes: seq<int>)
    requires RowIds(rows, ids)
  {
    && |takes| == |ids|
    && (forall i :: 0 <= i < |ids| ==> 0 <= takes[i] <= rows[ids[i]].amount)
    && (forall i, j :: 0 <= i < j < |ids| && takes[j] > 0 ==> takes[i] == rows[ids[i]].amount)
  }

  lemma InTurnAfterFirst(rows: seq<Alloc>, ids: seq<nat>, takes: seq<int>)
    requires RowIds(rows, ids) && ids != [] && InTurn(rows, ids, takes)
    ensures InTurn(rows, ids[1..], takes[1..])
  {
    var rest, more := ids[1..], takes[1..];
    forall i, j | 0 <= i < j < |rest| && more[j] > 0 ensures more[i] == rows[rest[i]].amount {
      assert takes[j + 1] > 0 && takes[i + 1] == rows[ids[i + 1]].amount;
    }
  }

  lemma SplitFirst(rows: seq<Alloc>, ids: seq<nat>, takes: seq<int>, now: int)
    requires RowIds(rows, ids) && ids != [] && InTurn(rows, ids, takes) && takes[0] < rows[ids[0]].amount
    ensures forall k :: 0 < k < |ids| ==> takes[k] == 0
    ensures Replacements(rows, ids, takes, now)
         == if takes[0] > 0 then [KeptRow(rows[ids[0]], rows[ids[0]].amount - takes[0], now)] else []
  {
    forall k | 0 < k < |ids| ensures takes[k] == 0 {}
    NothingTaken(rows, ids[1..], takes[1..], now);
  }

  lemma {:induction false} OneReplacement(rows: seq<Alloc>, ids: seq<nat>, takes: seq<int>, now: int, k: nat)
    requires RowIds(rows, ids) && InTurn(rows, ids, takes) && k < |ids|
    ensures |Replacements(rows, ids, takes, now)| <= 1
    ensures 0 < takes[k] < rows[ids[k]].amount ==>
              Replacements(rows, ids, takes, now) == [KeptRow(rows[ids[k]], rows[ids[k]].amount - takes[k], now)]
  {
    if takes[0] < rows[ids[0]].amount {
      SplitFirst(rows, ids, takes, now);
    } else {
      WholeLeavesNothing(rows, ids, takes, now);
      InTurnAfterFirst(rows, ids, takes);
      if |ids| > 1 { OneReplacement(rows, ids[1..], takes[1..], now, if k > 0 then k - 1 else 0); }
    }
  }

  /** At most one row is split; its replacement pays the same debt with exactly what was not released. */
  lemma AtMostOneSplit(rows: seq<Alloc>, ids: seq<nat>, budget: int, takes: seq<int>, now: int)
    requires RowIds(rows, ids) && IsGreedy(budget, Amounts(rows, ids), takes)
    ensures |Replacements(rows, ids, takes, now)| <= 1
    ensures forall k :: 0 <= k < |ids| && 0 < takes[k] < rows[ids[k]].amount ==>
                          && |Replacements(rows, ids, takes, now)| == 1
                          && IsTheRest(Replacements(rows, ids, takes, now)[0], rows[ids[k]], takes[k], now)
  {
    assert InTurn(rows, ids, takes);
    if ids != [] { OneReplacement(rows, ids, takes, now, 0); }
    forall k | 0 <= k < |ids| && 0 < takes[k] < rows[ids[k]].amount
      ensures |Replacements(rows, ids, takes, now)| == 1
      ensures IsTheRest(Replacements(rows, ids, takes, now)[0], rows[ids[k]], takes[k], now)
    {
      OneReplacement(rows, ids, takes, now, k);
      ReplacementIsTheRest(rows[ids[k]], takes[k], now);
    }
  }

  /** What leaves the payments is what leaves the payable: the money goes back to prepayment. */
  lemma {:induction false} ReleasedMoneyIsConserved(rows: seq<Alloc>, ids: seq<nat>, takes: seq<int>, n: nat)
    requires RowIds(rows, ids) && |takes| == |ids|
    requires forall k :: 0 <= k < |ids| ==> rows[ids[k]].source < n
    ensures Sum(seq(n, s requires 0 <= s < n => TakenFrom(rows, ids, takes, s))) == Sum(takes)
  {
    var shares := seq(n, s requires 0 <= s < n => TakenFrom(rows, ids, takes, s));
    if ids == [] {
      SumOfZeros(shares);
    } else {
      var rest, more := ids[1..], takes[1..];
      assert forall k :: 0 <= k < |rest| ==> rest[k] == ids[k + 1];
      ReleasedMoneyIsConserved(rows, rest, more, n);
      var tail := seq(n, s requires 0 <= s < n => TakenFrom(rows, rest, more, s));
      var p := rows[ids[0]].source;
      assert shares == tail[p := tail[p] + takes[0]];
      SumUpdate(tail, p, tail[p] + takes[0]);
    }
  }

  lemma {:induction false} SumUpdate(xs: seq<int>, k: nat, x: int)
    requires k < |xs|
    ensures Sum(xs[k := x]) == Sum(xs) - xs[k] + x
  {
    if k > 0 {
      SumUpdate(xs[1..], k - 1, x);
      assert xs[k := x][1..] == xs[1..][k - 1 := x];
    } else {
      assert xs[0 := x][1..] == xs[1..];
    }
  }
}
