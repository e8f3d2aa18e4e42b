/**
 Posting a supplier credit, read off the columns: the memo, the payable, and which payment rows are
 given back.
 */
module SupplierPosting {
  import opened Base
  import opened Greedy
  import opened LedgerRows
  import opened ApCredit
  import opened LedgerRuns
  import Fairness

  /** The row that keeps what was not freed of row i: the same debt, paid from the same payment. */
  predicate RestOf(rows: seq<Alloc>, i: nat, rest: Alloc, now: int) {
    && i < |rows| && 0 < rest.amount < rows[i].amount
    && rest == Alloc(rows[i].source, rows[i].account, rest.amount, rows[i].auto, now, false, None, None, "")
  }

  /** Some active rows of the payable are reversed, the newest first and the last of them perhaps in part. */
  ghost predicate NewestFreed(rows: seq<Alloc>, all: seq<Alloc>, payable: nat, now: int) {
    && |rows| <= |all| <= |rows| + 1
    && (forall i :: 0 <= i < |rows| && all[i] != rows[i] ==>
          && !rows[i].reversed && rows[i].account == payable
          && all[i] == rows[i].(reversed := true, undoReason := "AP credit memo posted"))
    && (forall i, j :: 0 <= i < |rows| && 0 <= j < |rows| && Fairness.MadeAfter(rows, i, j) && all[j] != rows[j] ==>
          rows[i].reversed || rows[i].account != payable || all[i] != rows[i])
    && (|all| == |rows| + 1 ==>
          exists i: nat :: RestOf(rows, i, all[|rows|], now) && all[i] != rows[i]
                           && forall j :: 0 <= j < |rows| && j != i && all[j] != rows[j] ==> Fairness.MadeAfter(rows, j, i))
  }

  lemma {:induction false} SomeRowIsSplit(rows: seq<Alloc>, ids: seq<nat>, takes: seq<int>, now: int) returns (k: nat)
    requires RowIds(rows, ids) && |takes| == |ids| && Replacements(rows, ids, takes, now) != []
    ensures k < |ids| && 0 < takes[k] < rows[ids[k]].amount
  {
    if 0 < takes[0] < rows[ids[0]].amount {
      k := 0;
    } else {
      k := SomeRowIsSplit(rows, ids[1..], takes[1..], now);
      k := k + 1;
    }
  }

  /** What is released in part goes on as one row. */
  lemma RestOfTheSplit(rows: seq<Alloc>, ids: seq<nat>, budget: int, takes: seq<int>, now: int) returns (k: nat)
    requires RowIds(rows, ids) && IsGreedy(budget, Amounts(rows, ids), takes) && Replacements(rows, ids, takes, now) != []
    ensures |Replacements(rows, ids, takes, now)| == 1
    ensures k < |ids| && takes[k] > 0 && RestOf(rows, ids[k], Replacements(rows, ids, takes, now)[0], now)
    ensures forall j :: k < j < |ids| ==> takes[j] == 0
  {
    k := SomeRowIsSplit(rows, ids, takes, now);
    AtMostOneSplit(rows, ids, budget, takes, now);
    assert IsTheRest(Replacements(rows, ids, takes, now)[0], rows[ids[k]], takes[k], now);
    assert forall j :: k < j < |ids| && takes[j] > 0 ==> takes[k] == Amounts(rows, ids)[k];
  }

  /** A row of the payable is changed exactly when something is taken from it. */
  lemma ChangedRows(rows: seq<Alloc>, all: seq<Alloc>, payable: nat, ids: seq<nat>, takes: seq<int>, now: int)
    requires ids == PaidRows(rows, payable) && RowIds(rows, ids) && |takes| == |ids|
    requires ReleasedRows(rows, all, ids, takes, now)
    requires forall i :: 0 <= i < |rows| && rows[i].undoKey.Some? ==> rows[i].reversed
    ensures forall i :: 0 <= i < |rows| && all[i] != rows[i] ==>
              Pays(rows[i], payable) && all[i] == rows[i].(reversed := true, undoReason := RELEASED)
    ensures forall k :: 0 <= k < |ids| ==> (all[ids[k]] != rows[ids[k]] <==> takes[k] > 0)
  {
    forall k | 0 <= k < |ids| ensures Pays(rows[ids[k]], payable) { assert ids[k] in ids; }
    forall i | 0 <= i < |rows| && all[i] != rows[i]
      ensures Pays(rows[i], payable) && all[i] == rows[i].(reversed := true, undoReason := RELEASED)
    {
      var k :| 0 <= k < |ids| && ids[k] == i;
    }
  }

  lemma NewestGoFirst(rows: seq<Alloc>, payable: nat, ids: seq<nat>, budget: int, takes: seq<int>, i: nat, j: nat)
    returns (k: nat, l: nat)
    requires ids == PaidRows(rows, payable) && RowIds(rows, ids) && IsGreedy(budget, Amounts(rows, ids), takes)
    requires i < |rows| && j < |rows| && Pays(rows[i], payable) && Pays(rows[j], payable) && Fairness.MadeAfter(rows, i, j)
    requires rows[i].amount > 0
    ensures k < l < |ids| && ids[k] == i && ids[l] == j && (takes[l] > 0 ==> takes[k] > 0)
  {
    var before := NewestFirst(rows);
    assert before(i, j) && !before(j, i) && i != j;
    k, l := Fairness.Positions(before, ids, i, j);
    assert Amounts(rows, ids)[k] == rows[i].amount;
  }

  lemma ReleaseFreesTheNewest(rows: seq<Alloc>, all: seq<Alloc>, payable: nat, ids: seq<nat>, budget: int, takes: seq<int>, now: int)
    requires ids == PaidRows(rows, payable) && RowIds(rows, ids) && IsGreedy(budget, Amounts(rows, ids), takes)
    requires ReleasedRows(rows, all, ids, takes, now)
    requires forall i :: 0 <= i < |rows| ==> rows[i].amount > 0 && (rows[i].undoKey.Some? ==> rows[i].reversed)
    ensures NewestFreed(rows, all, payable, now)
  {
    AtMostOneSplit(rows, ids, budget, takes, now);
    ChangedRows(rows, all, payable, ids, takes, now);
    forall i, j | 0 <= i < |rows| && 0 <= j < |rows| && Fairness.MadeAfter(rows, i, j) && all[j] != rows[j]
      ensures rows[i].reversed || rows[i].account != payable || all[i] != rows[i]
    {
      if Pays(rows[i], payable) {
        var k, l := NewestGoFirst(rows, payable, ids, budget, takes, i, j);
      }
    }
    if |all| == |rows| + 1 {
      var k := RestOfTheSplit(rows, ids, budget, takes, now);
      assert all[|rows|] == all[|rows|..][0];
      forall j | 0 <= j < |rows| && j != ids[k] && all[j] != rows[j] ensures Fairness.MadeAfter(rows, j, ids[k]) {
        var l :| 0 <= l < |ids| && ids[l] == j;
        assert l < k && NewestFirst(rows)(ids[l], ids[k]);
      }
    }
  }

  /** Posting is accepted exactly within the original amount of an active payable. It makes the memo live and
      credits the payable; what was paid beyond the new debt, and no more, leaves the newest payment rows. */
  lemma PostingIsExact(db: Db, m: nat, now: int)
    requires Inv(db) && Wired(db) && m < |db.memos|
    ensures
      var d, memo, acc := Step(db, OpPostMemo(m, now)), db.memos[m], db.accounts[db.memos[m].payable];
      var freed := Max(0, acc.matched - (acc.original - acc.credited - memo.amount));
      if memo.status == Pending && !acc.voided && acc.credited + memo.amount <= acc.original then
        && Inv(d)
        && d.memos == db.memos[m := ApMemo(memo.payable, memo.order, memo.amount, Live)]
        && d.accounts == db.accounts[memo.payable := acc.(matched := acc.matched - freed, credited := acc.credited + memo.amount)]
        && |d.sources| == |db.sources|
        && (forall s :: 0 <= s < |db.sources| ==> d.sources[s] == db.sources[s].(matched := Held(d.allocs, OfSource(s))))
        && NewestFreed(db.allocs, d.allocs, memo.payable, now)
      else d == db
  {
    assert MemoOk(db, m);
    if db.memos[m].status == Pending && ActivePayable(db, db.memos[m].payable) {
      PostedTotals(db, m, now);
      if PostMemo(db, m, now).Ok? {
        PostedSources(db, m, now);
        PostedRows(db, m, now);
      }
    }
  }

  /** The rows a posting leaves, and nothing of the payments but their totals. */
  lemma PostedRows(db: Db, m: nat, now: int)
    requires Inv(db) && Wired(db) && m < |db.memos| && db.memos[m].status == Pending
    requires ActivePayable(db, db.memos[m].payable) && PostMemo(db, m, now).Ok?
    ensures NewestFreed(db.allocs, PostMemo(db, m, now).value.allocs, db.memos[m].payable, now)
  {
    var payable, amount := db.memos[m].payable, db.memos[m].amount;
    var ids, takes := PostMemoIsExact(db, m, now);
    forall i | 0 <= i < |db.allocs| ensures db.allocs[i].amount > 0 && (db.allocs[i].undoKey.Some? ==> db.allocs[i].reversed) {
      assert RowOk(db, i);
    }
    ReleaseFreesTheNewest(db.allocs, Release(db, payable, amount, now).value.allocs, payable, ids,
                          ToRelease(db.accounts[payable], amount), takes, now);
  }

  lemma PostedSources(db: Db, m: nat, now: int)
    requires Inv(db) && Wired(db) && m < |db.memos| && db.memos[m].status == Pending
    requires ActivePayable(db, db.memos[m].payable) && PostMemo(db, m, now).Ok?
    ensures
      var n := PostMemo(db, m, now).value;
      && |n.sources| == |db.sources|
      && forall s :: 0 <= s < |db.sources| ==> n.sources[s] == db.sources[s].(matched := Held(n.allocs, OfSource(s)))
  {
    var ids, takes := PostMemoIsExact(db, m, now);
    var n := PostMemo(db, m, now).value;
    forall s | 0 <= s < |db.sources| ensures n.sources[s] == db.sources[s].(matched := Held(n.allocs, OfSource(s))) {
      assert SourceOk(n, s);
    }
  }

  lemma PostedTotals(db: Db, m: nat, now: int)
    requires Inv(db) && Wired(db) && m < |db.memos| && db.memos[m].status == Pending
    requires ActivePayable(db, db.memos[m].payable)
    ensures
      var r, memo, acc := PostMemo(db, m, now), db.memos[m], db.accounts[db.memos[m].payable];
      var freed := Max(0, acc.matched - (acc.original - acc.credited - memo.amount));
      && (r.Ok? <==> acc.credited + memo.amount <= acc.original)
      && (r.Ok? ==>
            && Inv(r.value)
            && r.value.memos == db.memos[m := memo.(status := Live)]
            && r.value.accounts == db.accounts[memo.payable := acc.(matched := acc.matched - freed, credited := acc.credited + memo.amount)])
  {
    var ids, takes := PostMemoIsExact(db, m, now);
  }
}
