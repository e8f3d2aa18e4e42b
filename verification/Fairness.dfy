/**
 First come, first served, in the columns a reader of the tables sees: which accounts, payments and
 credits the three automatic loops reach first.
 */
module Fairness {
  import opened Ordering
  import opened LedgerRows
  import opened Engine
  import opened ApCredit
  import opened CustomerCredit

  /** Two ids of an ordered list stand in it as the order says. */
  lemma Positions(before: Precedes, ids: seq<nat>, x: nat, y: nat) returns (i: nat, j: nat)
    requires Ordered(before, ids) && x in ids && y in ids && before(x, y) && !before(y, x) && x != y
    ensures i < j < |ids| && ids[i] == x && ids[j] == y
  {
    i :| i < |ids| && ids[i] == x;
    j :| j < |ids| && ids[j] == y;
    assert forall k, l :: 0 <= k < l < |ids| ==> before(ids[k], ids[l]);
  }

  /** The earlier due date first, none last; then the earlier creation; then the smaller id. */
  predicate DueBefore(accounts: seq<Account>, i: nat, j: nat) {
    && i < |accounts| && j < |accounts|
    && var a, b := accounts[i], accounts[j];
    || (a.dueAt.Some? && b.dueAt.None?)
    || (a.dueAt.Some? && b.dueAt.Some? && a.dueAt.value < b.dueAt.value)
    || (a.dueAt == b.dueAt && a.createdAt < b.createdAt)
    || (a.dueAt == b.dueAt && a.createdAt == b.createdAt && i < j)
  }

  lemma TakenInTurn(db: Db, d: Db, s: nat, ids: seq<nat>, takes: seq<int>, now: int, i: nat, j: nat)
    requires s < |db.sources| && Indexed(db.accounts, ids) && |takes| == |ids| && i < j < |ids|
    requires Spread(db, d, s, ids, takes, now)
    requires takes[j] > 0 ==> takes[i] == Demands(db.accounts, ids)[i]
    requires takes[j] >= 0
    ensures d.accounts[ids[j]] != db.accounts[ids[j]] ==> Outstanding(d.accounts[ids[i]]) == 0
  {
    assert d.accounts[ids[i]] == db.accounts[ids[i]].(matched := db.accounts[ids[i]].matched + takes[i]);
    assert d.accounts[ids[j]] == db.accounts[ids[j]].(matched := db.accounts[ids[j]].matched + takes[j]);
  }

  /** If automatic allocation gives money to an account, every eligible account due before it is settled. */
  lemma DueFirstIsSettledFirst(db: Db, s: nat, now: int, one: nat, other: nat)
    requires s < |db.sources| && db.sources[s].party.Some? && Remaining(db.sources[s]) >= 0
    requires DueBefore(db.accounts, one, other) && Eligible(db, s, one) && Eligible(db, s, other)
    ensures AutoAllocate(db, s, now).accounts[other] != db.accounts[other] ==>
              Outstanding(AutoAllocate(db, s, now).accounts[one]) == 0
  {
    var ids, takes := AutoAllocateIsGreedy(db, s, now);
    assert Aging(db.accounts)(one, other) && !Aging(db.accounts)(other, one) && one != other;
    var i, j := Positions(Aging(db.accounts), ids, one, other);
    TakenInTurn(db, AutoAllocate(db, s, now), s, ids, takes, now, i, j);
  }

  predicate MadeAfter(rows: seq<Alloc>, i: nat, j: nat) {
    && i < |rows| && j < |rows|
    && (rows[i].createdAt > rows[j].createdAt || (rows[i].createdAt == rows[j].createdAt && i > j))
  }

  /** If posting a supplier credit takes money back from a payment row, it has taken back every later one. */
  lemma LastPaidIsReleasedFirst(db: Db, m: nat, now: int, one: nat, other: nat)
    requires Inv(db) && Wired(db) && PostMemo(db, m, now).Ok?
    requires MadeAfter(db.allocs, one, other)
    requires Pays(db.allocs[one], db.memos[m].payable) && Pays(db.allocs[other], db.memos[m].payable)
    ensures |PostMemo(db, m, now).value.allocs| >= |db.allocs|
    ensures PostMemo(db, m, now).value.allocs[other] != db.allocs[other] ==>
              PostMemo(db, m, now).value.allocs[one].reversed
  {
    var ids, takes := PostMemoIsExact(db, m, now);
    var before := NewestFirst(db.allocs);
    assert before(one, other) && !before(other, one) && one != other;
    var i, j := Positions(before, ids, one, other);
    var n := PostMemo(db, m, now).value;
    assert n.allocs[ids[j]] == if takes[j] > 0 then ReversedRow(db.allocs[other]) else db.allocs[other];
    assert n.allocs[ids[i]] == if takes[i] > 0 then ReversedRow(db.allocs[one]) else db.allocs[one];
    assert RowOk(db, one);
  }

  predicate IssuedBefore(sources: seq<Source>, i: nat, j: nat) {
    && i < |sources| && j < |sources|
    && (sources[i].createdAt < sources[j].createdAt || (sources[i].createdAt == sources[j].createdAt && i < j))
  }

  /** If a new receivable takes money from a credit, every usable older one is used up, unless its key was taken. */
  lemma OldestCreditIsUsedFirst(db: Db, r: nat, now: int, one: nat, other: nat)
    requires r < |db.accounts| && db.accounts[r].currency == CNY && !db.accounts[r].voided
    requires Outstanding(db.accounts[r]) >= 0 && IssuedBefore(db.sources, one, other)
    requires Usable(db, r, one) && Usable(db, r, other) && !KeyUsed(db, Auto(one, r))
    ensures AutoCredit(db, r, now).sources[other] != db.sources[other] ==>
              Remaining(AutoCredit(db, r, now).sources[one]) == 0
  {
    var ids, takes := AutoCreditIsGreedy(db, r, now);
    var before := FirstPosted(db.sources);
    assert before(one, other) && !before(other, one) && one != other;
    var i, j := Positions(before, ids, one, other);
    var d := AutoCredit(db, r, now);
    assert d.sources[ids[i]] == db.sources[one].(matched := db.sources[one].matched + takes[i]);
    assert d.sources[ids[j]] == db.sources[other].(matched := db.sources[other].matched + takes[j]);
    assert Offers(db, r, ids)[i] == Remaining(db.sources[one]);
  }
}
