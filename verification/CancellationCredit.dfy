/** Crediting a payable in one piece, and crediting it in several. */
module CancellationCredit {
  import opened Base
  import opened Greedy
  import opened LedgerRows
  import opened ApCredit
  import opened Rounding

  lemma TakesAll(demands: seq<int>, takes: seq<int>, budget: int)
    requires IsGreedy(budget, demands, takes) && Sum(takes) == Sum(demands)
    requires forall i :: 0 <= i < |demands| ==> demands[i] > 0
    ensures takes == demands
  {
    SumsAgreeOnlyWhenEqual(takes, demands);
  }

  lemma {:induction false} WholeTakesSplitNothing(rows: seq<Alloc>, ids: seq<nat>, takes: seq<int>, now: int)
    requires RowIds(rows, ids) && takes == Amounts(rows, ids)
    ensures Replacements(rows, ids, takes, now) == []
  {
    if ids != [] {
      assert takes[1..] == Amounts(rows, ids[1..]);
      WholeTakesSplitNothing(rows, ids[1..], takes[1..], now);
    }
  }

  /** Nothing is left active on the payable, and each payment has back what it had paid. */
  ghost predicate AllPaidBack(db: Db, d: Db, payable: nat, ids: seq<nat>)
    requires RowIds(db.allocs, ids)
  {
    && |d.allocs| == |db.allocs| && |d.sources| == |db.sources|
    && (forall k :: 0 <= k < |ids| ==> d.allocs[ids[k]].reversed)
    && (forall i: nat :: i < |db.allocs| && i !in ids ==> d.allocs[i] == db.allocs[i])
    && (forall s :: 0 <= s < |db.sources| ==>
          Remaining(d.sources[s]) == Remaining(db.sources[s])
            + TakenFrom(db.allocs, ids, Amounts(db.allocs, ids), s))
  }

  lemma ReleasingAllPaysAllBack(db: Db, d: Db, payable: nat, ids: seq<nat>, now: int)
    requires RowIds(db.allocs, ids) && payable < |db.accounts|
    requires forall k :: 0 <= k < |ids| ==> db.allocs[ids[k]].amount > 0
    requires Released(db, d, payable, ids, Amounts(db.allocs, ids), now)
    ensures AllPaidBack(db, d, payable, ids)
  {
    WholeTakesSplitNothing(db.allocs, ids, Amounts(db.allocs, ids), now);
    assert |d.allocs[|db.allocs|..]| == 0;
  }

  /** A memo that may be posted, for the whole of a payable without credits. */
  ghost predicate WholeMemo(db: Db, m: nat) {
    && Wired(db) && m < |db.memos| && db.memos[m].status == Pending
    && ActivePayable(db, db.memos[m].payable)
    && db.memos[m].amount == db.accounts[db.memos[m].payable].original
    && Credits(db.memos, db.memos[m].payable) == 0
  }

  lemma WholeMemoTakesAll(db: Db, m: nat, ids: seq<nat>, takes: seq<int>)
    requires Inv(db) && WholeMemo(db, m) && ids == PaidRows(db.allocs, db.memos[m].payable) && Linked(db, ids)
    requires IsGreedy(ToRelease(db.accounts[db.memos[m].payable], db.memos[m].amount), Amounts(db.allocs, ids), takes)
    ensures takes == Amounts(db.allocs, ids)
    ensures Sum(takes) == db.accounts[db.memos[m].payable].matched
    ensures db.accounts[db.memos[m].payable].credited == 0
    ensures forall k :: 0 <= k < |ids| ==> db.allocs[ids[k]].amount > 0
  {
    var p := db.memos[m].payable;
    assert AccountOk(db, p);
    PaidRowsAreReleasable(db, p);
    forall i | 0 <= i < |ids| ensures db.allocs[ids[i]].amount > 0 {
      assert RowOk(db, ids[i]);
    }
    TakesAll(Amounts(db.allocs, ids), takes, ToRelease(db.accounts[p], db.memos[m].amount));
  }

  lemma WholeMemoHasNoCreditYet(db: Db, m: nat)
    requires Inv(db) && WholeMemo(db, m)
    ensures db.accounts[db.memos[m].payable].credited == 0
  {
    assert AccountOk(db, db.memos[m].payable);
  }

  lemma WholeMemoPosts(db: Db, m: nat, now: int)
    returns (ids: seq<nat>, mid: Db)
    requires Inv(db) && WholeMemo(db, m)
    ensures var p := db.memos[m].payable;
            && ids == PaidRows(db.allocs, p) && Linked(db, ids)
            && mid.memos == db.memos && |mid.accounts| == |db.accounts|
            && PostMemo(db, m, now) == Ok(Credit(mid, m)) && Inv(Credit(mid, m))
            && Released(db, mid, p, ids, Amounts(db.allocs, ids), now)
            && Sum(Amounts(db.allocs, ids)) == db.accounts[p].matched
            && db.accounts[p].credited == 0
            && forall k :: 0 <= k < |ids| ==> db.allocs[ids[k]].amount > 0
  {
    var takes;
    ids, takes := PostMemoIsExact(db, m, now);
    WholeMemoHasNoCreditYet(db, m);
    WholeMemoTakesAll(db, m, ids, takes);
    mid := Release(db, db.memos[m].payable, db.memos[m].amount, now).value;
  }

  lemma CreditKeepsPaidBack(db: Db, mid: Db, m: nat, payable: nat, ids: seq<nat>)
    requires RowIds(db.allocs, ids) && AllPaidBack(db, mid, payable, ids)
    requires m < |mid.memos| && mid.memos[m].payable < |mid.accounts|
    ensures AllPaidBack(db, Credit(mid, m), payable, ids)
  {}

  /** What the credit then leaves on the payable. */
  lemma WholeCreditClears(db: Db, mid: Db, m: nat, ids: seq<nat>, now: int)
    requires m < |db.memos| && mid.memos == db.memos && db.memos[m].payable < |db.accounts|
    requires |mid.accounts| == |db.accounts|
    requires RowIds(db.allocs, ids) && forall k :: 0 <= k < |ids| ==> db.allocs[ids[k]].amount > 0
    requires Released(db, mid, db.memos[m].payable, ids, Amounts(db.allocs, ids), now)
    requires Sum(Amounts(db.allocs, ids)) == db.accounts[db.memos[m].payable].matched
    requires db.accounts[db.memos[m].payable].credited == 0
    requires db.memos[m].amount == db.accounts[db.memos[m].payable].original
    ensures var d := Credit(mid, m);
            var p := db.memos[m].payable;
            && |d.accounts| == |db.accounts| && AllPaidBack(db, d, p, ids)
            && d.accounts[p] == db.accounts[p].(matched := 0, credited := db.accounts[p].original)
  {
    ReleasingAllPaysAllBack(db, mid, db.memos[m].payable, ids, now);
    CreditKeepsPaidBack(db, mid, m, db.memos[m].payable, ids);
  }

  /**
   A credit for the whole original amount of a payable that has no credit yet always posts. It leaves nothing outstanding, reverses
   every active payment allocation without a split, and gives every allocated cent back.
   */
  lemma WholeCreditAlwaysPosts(db: Db, m: nat, now: int)
    returns (ids: seq<nat>)
    requires Inv(db) && WholeMemo(db, m)
    ensures ids == PaidRows(db.allocs, db.memos[m].payable) && Linked(db, ids)
    ensures PostMemo(db, m, now).Ok? && Inv(PostMemo(db, m, now).value)
    ensures var d := PostMemo(db, m, now).value;
            var p := db.memos[m].payable;
            && |d.accounts| == |db.accounts| && AllPaidBack(db, d, p, ids)
            && d.accounts[p] == db.accounts[p].(matched := 0, credited := db.accounts[p].original)
  {
    var mid;
    ids, mid := WholeMemoPosts(db, m, now);
    WholeCreditClears(db, mid, m, ids, now);
  }

  lemma PostingCredits(db: Db, m: nat, now: int)
    requires Inv(db) && Wired(db) && PostMemo(db, m, now).Ok?
    ensures m < |db.memos| && db.memos[m].payable < |db.accounts|
    ensures
      var n := PostMemo(db, m, now).value;
      var p := db.memos[m].payable;
      && Inv(n) && Wired(n) && n.memos == db.memos[m := db.memos[m].(status := Live)] && |n.accounts| == |db.accounts|
      && n.accounts[p] == db.accounts[p].(matched := n.accounts[p].matched,
                                          credited := db.accounts[p].credited + db.memos[m].amount)
  {
    var ids, takes := PostMemoIsExact(db, m, now);
    InvIsWired(PostMemo(db, m, now).value);
  }

  /** Of two credits asked for on one payable, once the first is posted the second posts exactly when both fit. */
  lemma SecondCreditPostsExactlyWhen(db: Db, m: nat, other: nat, now: int)
    requires Inv(db) && Wired(db) && PostMemo(db, m, now).Ok? && other < |db.memos| && other != m
    requires db.memos[other].payable == db.memos[m].payable && db.memos[other].status == Pending
    ensures m < |db.memos| && db.memos[m].payable < |db.accounts|
    ensures
      var n := PostMemo(db, m, now).value;
      var acc := db.accounts[db.memos[m].payable];
      && Wired(n)
      && (PostMemo(n, other, now).Ok? <==> acc.credited + db.memos[m].amount + db.memos[other].amount <= acc.original)
      && (PostMemo(n, other, now).Err? ==> PostMemo(n, other, now).error == ExceedsOriginal)
  {
    PostingCredits(db, m, now);
    var ids, takes := PostMemoIsExact(PostMemo(db, m, now).value, other, now);
  }

  /** Credits for the two halves of a one-cent line, each rounded up to a cent. */
  ghost predicate Halves(db: Db, m: nat, other: nat) {
    && m < |db.memos| && other < |db.memos| && other != m
    && db.memos[other].payable == db.memos[m].payable && ActivePayable(db, db.memos[m].payable)
    && db.memos[m].status == Pending && db.memos[other].status == Pending
    && db.memos[m].amount == Money(500, 1) && db.memos[other].amount == Money(500, 1)
    && db.accounts[db.memos[m].payable].original == Money(1000, 1)
    && db.accounts[db.memos[m].payable].credited == 0
  }

  /** Credited in pieces, a payable can be asked for more than it is worth: the first half posts, the second is refused. */
  lemma HalvesOverdrawThePayable(db: Db, m: nat, other: nat, now: int)
    requires Inv(db) && Wired(db) && Halves(db, m, other)
    ensures PostMemo(db, m, now).Ok? && Wired(PostMemo(db, m, now).value)
    ensures PostMemo(PostMemo(db, m, now).value, other, now) == Err(ExceedsOriginal)
  {
    var ids, takes := PostMemoIsExact(db, m, now);
    SecondCreditPostsExactlyWhen(db, m, other, now);
  }
}
