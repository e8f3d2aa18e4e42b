/**
 What the row locks of the engine cover: a transaction keeps what it has locked until it ends, and
 writes no row of the tables that it has not locked.
 */
module LockDiscipline {
  import opened EngineLocks

  /** Two-phase locking: no step of anybody takes a lock away from a transaction that goes on. */
  lemma LocksAreHeldToTheEnd(s: State, a: Action, i: nat, l: Lock)
    requires Safe(s) && i in s.txs && Holds(s.txs[i], l) && i in Do(s, a).txs
    ensures Holds(Do(s, a).txs[i], l)
  {
    if a.Advance? && a.tx == i && !Blocked(s, i) {
      assert TxOk(s.db, s.txs[i]);
      AdvanceKeepsLocks(s, i, a.ids, a.reason, a.now, l);
    }
  }

  lemma AdvanceKeepsLocks(s: State, me: nat, ids: seq<nat>, reason: string, now: int, l: Lock)
    requires me in s.txs && TxOk(s.db, s.txs[me]) && Holds(s.txs[me], l)
    requires me in Advanced(s, me, ids, reason, now).txs
    ensures Holds(Advanced(s, me, ids, reason, now).txs[me], l)
  {}

  /** The row is locked once the step is done by the transaction that takes it. */
  ghost predicate LockedBy(s: State, a: Action, n: State, l: Lock) {
    a.Advance? && a.tx in s.txs && a.tx in n.txs && Holds(n.txs[a.tx], l)
  }

  /** Whoever changes a source, an account or an allocation row of the tables has locked it. */
  lemma OnlyLockedRowsAreWritten(s: State, a: Action)
    requires Safe(s)
    ensures
      var n := Do(s, a);
      && |s.db.sources| <= |n.db.sources| && |s.db.accounts| <= |n.db.accounts| && |s.db.allocs| <= |n.db.allocs|
      && (forall x :: 0 <= x < |s.db.sources| && n.db.sources[x] != s.db.sources[x] ==> LockedBy(s, a, n, OnSource(x)))
      && (forall x :: 0 <= x < |s.db.accounts| && n.db.accounts[x] != s.db.accounts[x] ==> LockedBy(s, a, n, OnAccount(x)))
      && (forall x :: 0 <= x < |s.db.allocs| && n.db.allocs[x] != s.db.allocs[x] ==> LockedBy(s, a, n, OnRow(x)))
  {
    if a.Advance? && a.tx in s.txs && !Blocked(s, a.tx) {
      assert TxOk(s.db, s.txs[a.tx]);
      AdvanceWritesLocked(s, a.tx, a.ids, a.reason, a.now);
    }
  }

  lemma AdvanceWritesLocked(s: State, me: nat, ids: seq<nat>, reason: string, now: int)
    requires me in s.txs && TxOk(s.db, s.txs[me])
    ensures
      var n := Advanced(s, me, ids, reason, now);
      && |s.db.sources| <= |n.db.sources| && |s.db.accounts| <= |n.db.accounts| && |s.db.allocs| <= |n.db.allocs|
      && (forall x :: 0 <= x < |s.db.sources| && n.db.sources[x] != s.db.sources[x] ==>
            me in n.txs && Holds(n.txs[me], OnSource(x)))
      && (forall x :: 0 <= x < |s.db.accounts| && n.db.accounts[x] != s.db.accounts[x] ==>
            me in n.txs && Holds(n.txs[me], OnAccount(x)))
      && (forall x :: 0 <= x < |s.db.allocs| && n.db.allocs[x] != s.db.allocs[x] ==>
            me in n.txs && Holds(n.txs[me], OnRow(x)))
  {}
}
