/**
 The allocation engine run by many transactions at once: the steps of register, claim,
 manual allocation, reversal and voiding interleave at row-lock granularity, and every lock
 is held until commit.

 A transaction refuses before its first write, so a step writes to the shared rows under
 its locks and nothing has to be undone. Reads that take no lock may be stale: the list of
 candidate accounts is any list in aging order whose accounts match in party and currency.
 */
module EngineLocks {
  import opened Base
  import opened LedgerRows
  import opened Engine
  import opened Ordering
  import LedgerRuns

  datatype Job =
    | ToClaim(customer: nat)
    | ToVoid(kind: Kind)
    | ToMatch(kind: Kind, account: nat)
    | ToUndo(kind: Kind, row: nat)

  datatype Tx =
    | Starting(s: nat, job: Job)
    | Filling(s: nat, todo: seq<nat>, held: seq<nat>)
    | Matching(s: nat, kind: Kind, a: nat)
    | Undoing(s: nat, a: nat, kind: Kind, row: nat)
    | UndoingRow(s: nat, a: nat, kind: Kind, row: nat)
    | Done(s: nat, accounts: seq<nat>, rows: seq<nat>)

  datatype Lock = OnSource(id: nat) | OnAccount(id: nat) | OnRow(id: nat)

  datatype State = State(db: Db, txs: map<nat, Tx>)

  datatype Action =
    | Begin(tx: nat, s: nat, job: Job)
    | BeginUndo(tx: nat, kind: Kind, row: nat)
    | Register(tx: nat, kind: Kind, party: Option<nat>, currency: string, amount: int, ids: seq<nat>, now: int)
    | Advance(tx: nat, ids: seq<nat>, reason: string, now: int)
    | Commit(tx: nat)
    | NewAccount(side: Side, owner: nat, currency: string, amount: int, due: Option<int>, now: int)

  predicate Holds(t: Tx, l: Lock) {
    match t
    case Starting(_, _) => false
    case Filling(s, _, held) => l == OnSource(s) || (l.OnAccount? && l.id in held)
    case Matching(s, _, _) => l == OnSource(s)
    case Undoing(s, _, _, _) => l == OnSource(s)
    case UndoingRow(s, a, _, _) => l == OnSource(s) || l == OnAccount(a)
    case Done(s, accounts, rows) =>
      match l
      case OnSource(x) => x == s
      case OnAccount(x) => x in accounts
      case OnRow(x) => x in rows
  }

  /** The lock a transaction's next step takes. */
  function Wants(db: Db, t: Tx): Option<Lock> {
    match t
    case Starting(s, _) => Some(OnSource(s))
    case Filling(s, todo, _) =>
      if todo == [] || s >= |db.sources| || Remaining(db.sources[s]) <= 0 then None
      else Some(OnAccount(todo[0]))
    case Matching(_, _, a) => Some(OnAccount(a))
    case Undoing(_, a, _, _) => Some(OnAccount(a))
    case UndoingRow(_, _, _, row) => Some(OnRow(row))
    case Done(_, _, _) => None
  }

  predicate Waits(s: State, i: nat, j: nat) {
    && i in s.txs && j in s.txs && i != j
    && Wants(s.db, s.txs[i]).Some? && Holds(s.txs[j], Wants(s.db, s.txs[i]).value)
  }

  predicate Blocked(s: State, i: nat) {
    exists j :: j in s.txs && Waits(s, i, j)
  }

  /** What the unlocked candidate query promises however stale it is: immutable columns only. */
  ghost predicate Candidates(db: Db, s: nat, party: nat, ids: seq<nat>)
    requires s < |db.sources|
  {
    && Indexed(db.accounts, ids) && Ordered(Aging(db.accounts), ids)
    && forall k :: 0 <= k < |ids| ==>
         && db.accounts[ids[k]].side == SideOf(db.sources[s].kind)
         && db.accounts[ids[k]].party == party
         && db.accounts[ids[k]].currency == db.sources[s].currency
  }

  function Put(s: State, me: nat, t: Tx): State { s.(txs := s.txs[me := t]) }

  function Drop(s: State, me: nat): State { s.(txs := s.txs - {me}) }

  ghost function Claiming(s: State, me: nat, src: nat, customer: nat, ids: seq<nat>): State {
    if !IsEngineSource(s.db, Receipt, src) || s.db.sources[src].status == Voided
       || s.db.sources[src].party.Some? then Drop(s, me)
    else if !Candidates(s.db, src, customer, ids) then s
    else State(SetParty(s.db, src, customer), s.txs[me := Filling(src, ids, [])])
  }

  function Voiding(s: State, me: nat, src: nat, kind: Kind): State {
    match VoidSource(s.db, kind, src)
    case Err(_) => Drop(s, me)
    case Ok(d) => State(d, s.txs[me := Done(src, [], [])])
  }

  /** One account of the automatic allocation: lock it, skip it if voided, match it otherwise. */
  function FillNext(s: State, me: nat, t: Tx, now: int): State
    requires t.Filling?
  {
    if Wants(s.db, t).None? then Put(s, me, Done(t.s, t.held, []))
    else if t.todo[0] >= |s.db.accounts| then s
    else
      var next := Filling(t.s, t.todo[1..], t.held + [t.todo[0]]);
      if s.db.accounts[t.todo[0]].voided then Put(s, me, next)
      else State(TakeOne(s.db, t.s, t.todo[0], true, now), s.txs[me := next])
  }

  function MatchNow(s: State, me: nat, t: Tx, now: int): State
    requires t.Matching?
  {
    match ManualAllocate(s.db, t.kind, t.s, t.a, now)
    case Err(_) => Drop(s, me)
    case Ok(d) => State(d, s.txs[me := Done(t.s, [t.a], [])])
  }

  function UndoNow(s: State, me: nat, t: Tx, reason: string): State
    requires t.UndoingRow?
  {
    match Reverse(s.db, t.kind, t.row, reason)
    case Err(_) => Drop(s, me)
    case Ok(d) => State(d, s.txs[me := Done(t.s, [t.a], [t.row])])
  }

  /** The next step of a transaction that does not have to wait. */
  ghost function Advanced(s: State, me: nat, ids: seq<nat>, reason: string, now: int): State
    requires me in s.txs
  {
    match s.txs[me]
    case Starting(src, ToClaim(customer)) => Claiming(s, me, src, customer, ids)
    case Starting(src, ToVoid(kind)) => Voiding(s, me, src, kind)
    case Starting(src, ToMatch(kind, a)) => Put(s, me, Matching(src, kind, a))
    case Starting(src, ToUndo(kind, row)) =>
      if row < |s.db.allocs| then Put(s, me, Undoing(src, s.db.allocs[row].account, kind, row)) else s
    case Filling(_, _, _) => FillNext(s, me, s.txs[me], now)
    case Matching(_, _, _) => MatchNow(s, me, s.txs[me], now)
    case Undoing(src, a, kind, row) => Put(s, me, UndoingRow(src, a, kind, row))
    case UndoingRow(_, _, _, _) => UndoNow(s, me, s.txs[me], reason)
    case Done(_, _, _) => s
  }

  /** A new source is seen by its own transaction only, which therefore holds its row. */
  ghost function Registered(s: State, a: Action): State
    requires a.Register?
  {
    var src := Source(a.kind, a.party, a.currency, a.amount, 0, Live, a.now, 0, 0);
    var d := AddSource(s.db, src);
    var id := |s.db.sources|;
    if a.kind == CreditMemo || a.amount <= 0 || (a.kind == Payment && a.party.None?) then s
    else if a.party.None? then State(d, s.txs[a.tx := Done(id, [], [])])
    else if !Candidates(d, id, a.party.value, a.ids) then s
    else State(d, s.txs[a.tx := Filling(id, a.ids, [])])
  }

  ghost function Do(s: State, a: Action): State {
    match a
    case Begin(me, src, job) =>
      if me in s.txs || src >= |s.db.sources| || job.ToUndo? then s else Put(s, me, Starting(src, job))
    case BeginUndo(me, kind, row) =>
      if me in s.txs || !ReversibleRow(s.db, kind, row) then s
      else Put(s, me, Starting(s.db.allocs[row].source, ToUndo(kind, row)))
    case Register(me, _, _, _, _, _, _) => if me in s.txs then s else Registered(s, a)
    case Advance(me, ids, reason, now) =>
      if me !in s.txs || Blocked(s, me) then s else Advanced(s, me, ids, reason, now)
    case Commit(me) => if me in s.txs && s.txs[me].Done? then Drop(s, me) else s
    case NewAccount(side, owner, currency, amount, due, now) =>
      if amount < 0 then s
      else s.(db := LedgerRuns.AddAccount(s.db, side, owner, currency, amount, due, now))
  }

  ghost function Run(s: State, actions: seq<Action>): State
    decreases |actions|
  {
    if actions == [] then s else Run(Do(s, actions[0]), actions[1..])
  }

  // ---------- The invariant ----------

  ghost predicate FillOk(db: Db, t: Tx)
    requires t.Filling?
  {
    && t.s < |db.sources| && db.sources[t.s].status == Live && db.sources[t.s].kind != CreditMemo
    && db.sources[t.s].party.Some?
    && Candidates(db, t.s, db.sources[t.s].party.value, t.todo)
    && (forall k :: 0 <= k < |t.todo| ==> !ActivePair(db, t.s, t.todo[k]))
    && Indexed(db.accounts, t.held)
    && (forall h, k :: 0 <= h < |t.held| && 0 <= k < |t.todo| ==> Older(db.accounts, t.held[h], t.todo[k]))
    && (Remaining(db.sources[t.s]) > 0 ==>
          forall h :: 0 <= h < |t.held| ==> Closed(db.accounts[t.held[h]]))
  }

  predicate Closed(a: Account) { a.voided || Outstanding(a) <= 0 }

  ghost predicate TxOk(db: Db, t: Tx) {
    match t
    case Starting(s, job) =>
      s < |db.sources| && (job.ToUndo? ==> job.row < |db.allocs| && db.allocs[job.row].source == s)
    case Filling(_, _, _) => FillOk(db, t)
    case Matching(s, _, _) => s < |db.sources|
    case Undoing(s, a, _, row) => row < |db.allocs| && db.allocs[row].source == s && db.allocs[row].account == a
    case UndoingRow(s, a, _, row) => row < |db.allocs| && db.allocs[row].source == s && db.allocs[row].account == a
    case Done(s, _, _) => s < |db.sources|
  }

  ghost predicate Exclusive(s: State) {
    forall i, j, l :: i in s.txs && j in s.txs && i != j && Holds(s.txs[i], l) ==> !Holds(s.txs[j], l)
  }

  ghost predicate Safe(s: State) {
    && Inv(s.db)
    && (forall i :: i in s.txs ==> TxOk(s.db, s.txs[i]))
    && Exclusive(s)
  }

  /** An edit that touches neither this source, nor its rows, nor the held accounts. */
  ghost predicate Elsewhere(db: Db, d: Db, t: Tx) {
    && |db.sources| <= |d.sources| && |db.accounts| <= |d.accounts| && |db.allocs| <= |d.allocs|
    && (forall i :: 0 <= i < |db.allocs| ==>
          d.allocs[i].source == db.allocs[i].source && d.allocs[i].account == db.allocs[i].account
          && (db.allocs[i].reversed ==> d.allocs[i].reversed))
    && (forall a :: 0 <= a < |db.accounts| ==> SameAging(db.accounts[a], d.accounts[a]))
    && (t.Filling? && t.s < |db.sources| ==> d.sources[t.s] == db.sources[t.s])
    && (t.Filling? ==> forall i :: |db.allocs| <= i < |d.allocs| ==> d.allocs[i].source != t.s)
    && (t.Filling? ==> forall h :: h in t.held && h < |db.accounts| ==> d.accounts[h] == db.accounts[h])
  }

  /** The columns of an account that are never rewritten. */
  predicate SameAging(a: Account, b: Account) {
    && a.side == b.side && a.party == b.party && a.currency == b.currency
    && a.dueAt == b.dueAt && a.createdAt == b.createdAt
  }

  lemma OlderIsStable(db: Db, d: Db, t: Tx)
    requires Elsewhere(db, d, t)
    ensures forall i: nat, j: nat :: Older(db.accounts, i, j) ==> Older(d.accounts, i, j)
  {
    forall i: nat, j: nat | Older(db.accounts, i, j) ensures Older(d.accounts, i, j) {
      assert SameAging(db.accounts[i], d.accounts[i]) && SameAging(db.accounts[j], d.accounts[j]);
    }
  }

  lemma ElsewhereKeepsTx(db: Db, d: Db, t: Tx)
    requires TxOk(db, t) && Elsewhere(db, d, t)
    ensures TxOk(d, t)
  {
    if t.Filling? {
      OlderIsStable(db, d, t);
      forall k | 0 <= k < |t.todo|
        ensures !ActivePair(d, t.s, t.todo[k]) && SameAging(db.accounts[t.todo[k]], d.accounts[t.todo[k]])
      {
        assert !ActivePair(db, t.s, t.todo[k]);
      }
      forall h | 0 <= h < |t.held| ensures d.accounts[t.held[h]] == db.accounts[t.held[h]] {
        assert t.held[h] in t.held;
      }
    }
  }

  lemma StepKeepsSafe(s: State, n: State, me: nat)
    requires Safe(s) && Inv(n.db)
    requires n.txs == (if me in n.txs then s.txs[me := n.txs[me]] else s.txs - {me})
    requires me in n.txs ==> TxOk(n.db, n.txs[me])
    requires me in n.txs ==> forall l, j :: Holds(n.txs[me], l) && j in s.txs && j != me ==> !Holds(s.txs[j], l)
    requires forall i :: i in s.txs && i != me ==> Elsewhere(s.db, n.db, s.txs[i])
    ensures Safe(n)
  {
    forall i | i in n.txs ensures TxOk(n.db, n.txs[i]) {
      if i != me {
        assert TxOk(s.db, s.txs[i]);
        ElsewhereKeepsTx(s.db, n.db, s.txs[i]);
      }
    }
  }

  // ---------- Every step keeps it ----------

  /** A step that only moves its own program counter. */
  lemma PutKeepsSafe(s: State, me: nat, t: Tx)
    requires Safe(s) && TxOk(s.db, t)
    requires forall l, j :: Holds(t, l) && j in s.txs && j != me ==> !Holds(s.txs[j], l)
    ensures Safe(Put(s, me, t))
  {
    StepKeepsSafe(s, Put(s, me, t), me);
  }

  lemma DropKeepsSafe(s: State, me: nat)
    requires Safe(s)
    ensures Safe(Drop(s, me))
  {
    StepKeepsSafe(s, Drop(s, me), me);
  }

  /** The source a transaction has locked is locked by no other. */
  lemma OthersLeaveMySource(s: State, me: nat, src: nat)
    requires Safe(s) && me in s.txs && !Blocked(s, me)
    requires Holds(s.txs[me], OnSource(src)) || Wants(s.db, s.txs[me]) == Some(OnSource(src))
    ensures forall i :: i in s.txs && i != me ==> !Holds(s.txs[i], OnSource(src))
  {
    forall i | i in s.txs && i != me ensures !Holds(s.txs[i], OnSource(src)) {
      assert !Waits(s, me, i);
    }
  }

  lemma OthersLeaveTheWanted(s: State, me: nat, l: Lock)
    requires me in s.txs && !Blocked(s, me) && Wants(s.db, s.txs[me]) == Some(l)
    ensures forall i :: i in s.txs && i != me ==> !Holds(s.txs[i], l)
  {
    forall i | i in s.txs && i != me ensures !Holds(s.txs[i], l) {
      assert !Waits(s, me, i);
    }
  }

  lemma StartKeepsSafe(s: State, me: nat, ids: seq<nat>)
    requires Safe(s) && me in s.txs && s.txs[me].Starting? && !Blocked(s, me)
    ensures Safe(Advanced(s, me, ids, "", 0))
  {
    var t := s.txs[me];
    assert TxOk(s.db, t);
    OthersLeaveMySource(s, me, t.s);
    match t.job
    case ToClaim(customer) => ClaimKeepsSafe(s, me, t.s, customer, ids);
    case ToVoid(kind) => VoidKeepsSafe(s, me, t.s, kind);
    case ToMatch(kind, a) => PutKeepsSafe(s, me, Matching(t.s, kind, a));
    case ToUndo(kind, row) => PutKeepsSafe(s, me, Undoing(t.s, s.db.allocs[row].account, kind, row));
  }

  lemma ClaimKeepsSafe(s: State, me: nat, src: nat, customer: nat, ids: seq<nat>)
    requires Safe(s) && me in s.txs
    requires forall i :: i in s.txs && i != me ==> !Holds(s.txs[i], OnSource(src))
    ensures Safe(Claiming(s, me, src, customer, ids))
  {
    var n := Claiming(s, me, src, customer, ids);
    DropKeepsSafe(s, me);
    if n != s && n != Drop(s, me) {
      ActiveIffMatched(s.db, src);
      assert SourceOk(s.db, src);
      IdleSourceEditKeepsInv(s.db, src, s.db.sources[src].(party := Some(customer)));
      NothingMatchedNoRows(s.db, src);
      StepKeepsSafe(s, n, me);
    }
  }

  lemma VoidKeepsSafe(s: State, me: nat, src: nat, kind: Kind)
    requires Safe(s) && me in s.txs
    requires forall i :: i in s.txs && i != me ==> !Holds(s.txs[i], OnSource(src))
    ensures Safe(Voiding(s, me, src, kind))
  {
    var n := Voiding(s, me, src, kind);
    DropKeepsSafe(s, me);
    if VoidSource(s.db, kind, src).Ok? {
      assert SourceOk(s.db, src);
      IdleSourceEditKeepsInv(s.db, src, s.db.sources[src].(status := Voided));
      StepKeepsSafe(s, n, me);
    }
  }

  lemma FillOkAfterNext(db: Db, t: Tx, now: int)
    requires Inv(db) && t.Filling? && FillOk(db, t) && Wants(db, t).Some? && !db.accounts[t.todo[0]].voided
    ensures
      var d := TakeOne(db, t.s, t.todo[0], true, now);
      Inv(d) && FillOk(d, Filling(t.s, t.todo[1..], t.held + [t.todo[0]]))
  {
    var a := t.todo[0];
    var d := TakeOne(db, t.s, a, true, now);
    assert AccountOk(db, a);
    if d != db { AttachKeepsInv(db, d.allocs[|db.allocs|]); }
    forall k | 0 <= k < |t.todo[1..]| ensures !ActivePair(d, t.s, t.todo[1..][k]) {
      assert t.todo[1..][k] == t.todo[k + 1] && Older(db.accounts, a, t.todo[k + 1]);
      assert !ActivePair(db, t.s, t.todo[k + 1]);
    }
    forall i: nat, j: nat | Older(db.accounts, i, j) ensures Older(d.accounts, i, j) {}
  }

  /** The next account is voided: it is locked, passed over and kept locked. */
  lemma FillPassesVoided(s: State, me: nat)
    requires Safe(s) && me in s.txs && s.txs[me].Filling? && !Blocked(s, me) && Wants(s.db, s.txs[me]).Some?
    requires s.txs[me].todo[0] < |s.db.accounts| && s.db.accounts[s.txs[me].todo[0]].voided
    ensures var t := s.txs[me]; Safe(Put(s, me, Filling(t.s, t.todo[1..], t.held + [t.todo[0]])))
  {
    var t := s.txs[me];
    var next := Filling(t.s, t.todo[1..], t.held + [t.todo[0]]);
    assert TxOk(s.db, t);
    OthersLeaveMySource(s, me, t.s);
    OthersLeaveTheWanted(s, me, OnAccount(t.todo[0]));
    VoidedIsClosed(s.db, t);
    PutKeepsSafe(s, me, next);
  }

  lemma VoidedIsClosed(db: Db, t: Tx)
    requires t.Filling? && FillOk(db, t) && Wants(db, t).Some? && db.accounts[t.todo[0]].voided
    ensures FillOk(db, Filling(t.s, t.todo[1..], t.held + [t.todo[0]]))
  {
    forall k | 0 <= k < |t.todo[1..]| ensures t.todo[1..][k] == t.todo[k + 1] {}
  }

  /** The next account is locked and given what it can take. */
  lemma FillTakesNext(s: State, me: nat, now: int)
    requires Safe(s) && me in s.txs && s.txs[me].Filling? && !Blocked(s, me) && Wants(s.db, s.txs[me]).Some?
    requires s.txs[me].todo[0] < |s.db.accounts| && !s.db.accounts[s.txs[me].todo[0]].voided
    ensures Safe(FillNext(s, me, s.txs[me], now))
  {
    var t := s.txs[me];
    assert TxOk(s.db, t);
    OthersLeaveMySource(s, me, t.s);
    OthersLeaveTheWanted(s, me, OnAccount(t.todo[0]));
    FillOkAfterNext(s.db, t, now);
    StepKeepsSafe(s, FillNext(s, me, t, now), me);
  }

  lemma FillKeepsSafe(s: State, me: nat, now: int)
    requires Safe(s) && me in s.txs && s.txs[me].Filling? && !Blocked(s, me)
    ensures Safe(FillNext(s, me, s.txs[me], now))
  {
    var t := s.txs[me];
    assert TxOk(s.db, t);
    if Wants(s.db, t).None? {
      OthersLeaveMySource(s, me, t.s);
      PutKeepsSafe(s, me, Done(t.s, t.held, []));
    } else if s.db.accounts[t.todo[0]].voided {
      FillPassesVoided(s, me);
    } else {
      FillTakesNext(s, me, now);
    }
  }

  lemma MatchKeepsSafe(s: State, me: nat, now: int)
    requires Safe(s) && me in s.txs && s.txs[me].Matching? && !Blocked(s, me)
    ensures Safe(MatchNow(s, me, s.txs[me], now))
  {
    var t := s.txs[me];
    DropKeepsSafe(s, me);
    OthersLeaveMySource(s, me, t.s);
    OthersLeaveTheWanted(s, me, OnAccount(t.a));
    ManualAllocateKeepsInv(s.db, t.kind, t.s, t.a, now);
    if ManualAllocate(s.db, t.kind, t.s, t.a, now).Ok? {
      StepKeepsSafe(s, MatchNow(s, me, t, now), me);
    }
  }

  lemma UndoKeepsSafe(s: State, me: nat, reason: string)
    requires Safe(s) && me in s.txs && s.txs[me].UndoingRow? && !Blocked(s, me)
    ensures Safe(UndoNow(s, me, s.txs[me], reason))
  {
    var t := s.txs[me];
    assert TxOk(s.db, t);
    DropKeepsSafe(s, me);
    OthersLeaveMySource(s, me, t.s);
    OthersLeaveTheWanted(s, me, OnRow(t.row));
    ReverseKeepsInv(s.db, t.kind, t.row, reason);
    if Reverse(s.db, t.kind, t.row, reason).Ok? {
      assert RowOk(s.db, t.row);
      forall i | i in s.txs && i != me ensures !Holds(s.txs[i], OnAccount(t.a)) {
        assert Holds(t, OnAccount(t.a));
      }
      StepKeepsSafe(s, UndoNow(s, me, t, reason), me);
    }
  }

  lemma RegisterKeepsSafe(s: State, a: Action)
    requires Safe(s) && a.Register? && a.tx !in s.txs
    ensures Safe(Registered(s, a))
  {
    var n := Registered(s, a);
    if n != s {
      var src := Source(a.kind, a.party, a.currency, a.amount, 0, Live, a.now, 0, 0);
      AddSourceKeepsInv(s.db, src);
      NothingMatchedNoRows(n.db, |s.db.sources|);
      forall i | i in s.txs ensures !Holds(s.txs[i], OnSource(|s.db.sources|)) {
        assert TxOk(s.db, s.txs[i]);
        if s.txs[i].Undoing? || s.txs[i].UndoingRow? { assert RowOk(s.db, s.txs[i].row); }
      }
      StepKeepsSafe(s, n, a.tx);
    }
  }

  lemma NewAccountKeepsSafe(s: State, a: Action)
    requires Safe(s) && a.NewAccount?
    ensures Safe(Do(s, a))
  {
    if a.amount >= 0 {
      LedgerRuns.AddAccountKeepsInv(s.db, a.side, a.owner, a.currency, a.amount, a.due, a.now);
      var n := Do(s, a);
      forall i | i in n.txs ensures TxOk(n.db, n.txs[i]) {
        assert TxOk(s.db, s.txs[i]);
        ElsewhereKeepsTx(s.db, n.db, s.txs[i]);
      }
    }
  }

  lemma DoKeepsSafe(s: State, a: Action)
    requires Safe(s)
    ensures Safe(Do(s, a))
  {
    match a
    case Begin(me, src, job) => if Do(s, a) != s { PutKeepsSafe(s, me, Starting(src, job)); }
    case BeginUndo(me, kind, row) =>
      if Do(s, a) != s { PutKeepsSafe(s, me, Starting(s.db.allocs[row].source, ToUndo(kind, row))); }
    case Register(me, _, _, _, _, _, _) => if me !in s.txs { RegisterKeepsSafe(s, a); }
    case Advance(me, ids, reason, now) =>
      if me in s.txs && !Blocked(s, me) { AdvanceKeepsSafe(s, me, ids, reason, now); }
    case Commit(me) => DropKeepsSafe(s, me);
    case NewAccount(_, _, _, _, _, _) => NewAccountKeepsSafe(s, a);
  }

  lemma AdvanceKeepsSafe(s: State, me: nat, ids: seq<nat>, reason: string, now: int)
    requires Safe(s) && me in s.txs && !Blocked(s, me)
    ensures Safe(Advanced(s, me, ids, reason, now))
  {
    var t := s.txs[me];
    assert TxOk(s.db, t);
    match t
    case Starting(_, _) => StartKeepsSafe(s, me, ids);
    case Filling(_, _, _) => FillKeepsSafe(s, me, now);
    case Matching(_, _, _) => MatchKeepsSafe(s, me, now);
    case Undoing(src, a, kind, row) =>
      OthersLeaveTheWanted(s, me, OnAccount(a));
      PutKeepsSafe(s, me, UndoingRow(src, a, kind, row));
    case UndoingRow(_, _, _, _) => UndoKeepsSafe(s, me, reason);
    case Done(_, _, _) =>
  }

  /** Under every interleaving, in the middle of every transaction, the ledger invariant holds. */
  lemma {:induction false} EveryInterleavingConserves(s: State, actions: seq<Action>)
    requires Safe(s)
    ensures Safe(Run(s, actions))
    decreases |actions|
  {
    if actions != [] {
      DoKeepsSafe(s, actions[0]);
      EveryInterleavingConserves(Do(s, actions[0]), actions[1..]);
    }
  }

  // ---------- No wait cycle ----------

  /** The engine's one lock order: sources, then accounts by age, then allocation rows. */
  predicate Lower(accounts: seq<Account>, x: Lock, y: Lock) {
    match x
    case OnSource(_) => !y.OnSource?
    case OnAccount(i) => y.OnRow? || (y.OnAccount? && Older(accounts, i, y.id))
    case OnRow(_) => false
  }

  lemma LowerIsStrict(accounts: seq<Account>, x: Lock, y: Lock, z: Lock)
    ensures !Lower(accounts, x, x)
    ensures Lower(accounts, x, y) && Lower(accounts, y, z) ==> Lower(accounts, x, z)
  {}

  /** Whatever a transaction already holds is lower than the lock it asks for next. */
  lemma LocksAreTakenUpwards(s: State, i: nat, l: Lock)
    requires Safe(s) && i in s.txs && Holds(s.txs[i], l) && Wants(s.db, s.txs[i]).Some?
    ensures Lower(s.db.accounts, l, Wants(s.db, s.txs[i]).value)
  {
    var t := s.txs[i];
    assert TxOk(s.db, t);
    if t.Filling? && l.OnAccount? {
      var h :| 0 <= h < |t.held| && t.held[h] == l.id;
      assert Older(s.db.accounts, t.held[h], t.todo[0]);
    }
  }

  /** Each transaction of the list waits for the next one. */
  ghost predicate WaitsAlong(s: State, p: seq<nat>) {
    forall k :: 0 <= k < |p| - 1 ==> Waits(s, p[k], p[k + 1])
  }

  lemma {:induction false} WantsRiseAlong(s: State, p: seq<nat>, k: nat)
    requires Safe(s) && WaitsAlong(s, p) && 0 < k < |p| - 1
    ensures Waits(s, p[0], p[1]) && Waits(s, p[k], p[k + 1])
    ensures Lower(s.db.accounts, Wants(s.db, s.txs[p[0]]).value, Wants(s.db, s.txs[p[k]]).value)
  {
    assert Waits(s, p[k - 1], p[k]) && Waits(s, p[k], p[k + 1]);
    var wanted := Wants(s.db, s.txs[p[k - 1]]).value;
    LocksAreTakenUpwards(s, p[k], wanted);
    if k > 1 {
      WantsRiseAlong(s, p, k - 1);
      LowerIsStrict(s.db.accounts, Wants(s.db, s.txs[p[0]]).value, wanted, Wants(s.db, s.txs[p[k]]).value);
    }
  }

  /** However many transactions run, no chain of waits comes back to where it started. */
  lemma NoWaitCycle(s: State, p: seq<nat>)
    requires Safe(s) && WaitsAlong(s, p) && |p| > 1
    ensures p[0] != p[|p| - 1]
  {
    var n := |p| - 1;
    assert Waits(s, p[n - 1], p[n]);
    if p[0] == p[n] && n > 1 {
      assert Waits(s, p[0], p[1]);
      var first := Wants(s.db, s.txs[p[0]]).value;
      var last := Wants(s.db, s.txs[p[n - 1]]).value;
      WantsRiseAlong(s, p, n - 1);
      LocksAreTakenUpwards(s, p[n], last);
      LowerIsStrict(s.db.accounts, first, last, first);
    }
  }

  ghost predicate Topmost(s: State, among: set<nat>, m: nat)
    requires among <= s.txs.Keys && m in among
    requires forall i :: i in among ==> Wants(s.db, s.txs[i]).Some?
  {
    forall j :: j in among ==>
      !Lower(s.db.accounts, Wants(s.db, s.txs[m]).value, Wants(s.db, s.txs[j]).value)
  }

  lemma {:induction false} SomeWantIsTopmost(s: State, among: set<nat>) returns (m: nat)
    requires among != {} && among <= s.txs.Keys
    requires forall i :: i in among ==> Wants(s.db, s.txs[i]).Some?
    ensures m in among && Topmost(s, among, m)
  {
    m :| m in among;
    LowerIsStrict(s.db.accounts, Wants(s.db, s.txs[m]).value, Wants(s.db, s.txs[m]).value, OnRow(0));
    if among != {m} {
      var rest := among - {m};
      assert among == rest + {m};
      var top := SomeWantIsTopmost(s, rest);
      var wm, wt := Wants(s.db, s.txs[m]).value, Wants(s.db, s.txs[top]).value;
      forall j | j in among
        ensures Lower(s.db.accounts, wt, wm) ==> !Lower(s.db.accounts, wm, Wants(s.db, s.txs[j]).value)
      {
        LowerIsStrict(s.db.accounts, wt, wm, Wants(s.db, s.txs[j]).value);
        LowerIsStrict(s.db.accounts, wm, wm, wm);
      }
      if !Lower(s.db.accounts, wt, wm) { m := top; }
    }
  }

  lemma UnblockedMoves(s: State, i: nat)
    requires Safe(s) && i in s.txs && !Blocked(s, i)
    ensures var n := Do(s, if s.txs[i].Done? then Commit(i) else Advance(i, [], "", 0));
            i in n.txs ==> n.txs[i] != s.txs[i]
  {
    assert TxOk(s.db, s.txs[i]);
  }

  lemma SomeoneIsFree(s: State) returns (i: nat)
    requires Safe(s) && s.txs != map[]
    ensures i in s.txs && !Blocked(s, i)
  {
    if free: nat :| free in s.txs && !Blocked(s, free) {
      i := free;
    } else {
      forall k | k in s.txs ensures Wants(s.db, s.txs[k]).Some? { assert Blocked(s, k); }
      i := SomeWantIsTopmost(s, s.txs.Keys);
      var j :| j in s.txs && Waits(s, i, j);
      LocksAreTakenUpwards(s, j, Wants(s.db, s.txs[i]).value);
      assert false;
    }
  }

  /** So a set of concurrent transactions is never stuck: one of them has all it needs, and its
      next step takes it further or out. */
  lemma SomeoneCanMove(s: State) returns (i: nat)
    requires Safe(s) && s.txs != map[]
    ensures i in s.txs && !Blocked(s, i)
    ensures var n := Do(s, if s.txs[i].Done? then Commit(i) else Advance(i, [], "", 0));
            i in n.txs ==> n.txs[i] != s.txs[i]
  {
    i := SomeoneIsFree(s);
    UnblockedMoves(s, i);
  }

  // ---------- Exactly once, and maximal ----------

  lemma StepKeepsReversed(s: State, a: Action, row: nat)
    requires Safe(s) && row < |s.db.allocs| && s.db.allocs[row].reversed
    ensures row < |Do(s, a).db.allocs| && Do(s, a).db.allocs[row] == s.db.allocs[row]
  {
    if a.Advance? && a.tx in s.txs && s.txs[a.tx].Filling? { assert TxOk(s.db, s.txs[a.tx]); }
  }

  /** Two reversals of one row, however they interleave with each other and with anything else:
      after one has written, the other, whenever it gets the row, changes nothing and is refused. */
  lemma {:induction false} ReversedExactlyOnce(s: State, row: nat, actions: seq<Action>, me: nat, reason: string)
    requires Safe(s) && row < |s.db.allocs| && s.db.allocs[row].reversed
    ensures
      var n := Run(s, actions);
      && row < |n.db.allocs| && n.db.allocs[row] == s.db.allocs[row]
      && (me in n.txs && n.txs[me].UndoingRow? && n.txs[me].row == row && !Blocked(n, me) ==>
            Do(n, Advance(me, [], reason, 0)) == Drop(n, me))
    decreases |actions|
  {
    if actions != [] {
      DoKeepsSafe(s, actions[0]);
      StepKeepsReversed(s, actions[0], row);
      ReversedExactlyOnce(Do(s, actions[0]), row, actions[1..], me, reason);
    }
  }

  /** The reversal that gets the row first moves both totals by the row's amount. */
  lemma FirstReversalMovesTheTotals(s: State, me: nat, reason: string)
    requires Safe(s) && me in s.txs && s.txs[me].UndoingRow? && !Blocked(s, me)
    requires s.txs[me].row < |s.db.allocs| && !s.db.allocs[s.txs[me].row].reversed
    requires s.txs[me].kind != CreditMemo && IsEngineSource(s.db, s.txs[me].kind, s.txs[me].s)
    ensures
      var t := s.txs[me];
      var d := Do(s, Advance(me, [], reason, 0)).db;
      var amount := s.db.allocs[t.row].amount;
      && |d.sources| == |s.db.sources| && |d.accounts| == |s.db.accounts| > t.a && |d.allocs| == |s.db.allocs|
      && d.allocs[t.row].reversed
      && d.sources[t.s].matched == s.db.sources[t.s].matched - amount
      && d.accounts[t.a].matched == s.db.accounts[t.a].matched - amount
  {
    assert TxOk(s.db, s.txs[me]) && RowOk(s.db, s.txs[me].row);
  }

  // ---------- An automatic allocation ends maximal ----------

  /** A lock lets nobody else write the row it is on. */
  ghost predicate LockedRowsStay(db: Db, d: Db, t: Tx) {
    && (forall x: nat :: x < |db.sources| && Holds(t, OnSource(x)) ==> x < |d.sources| && d.sources[x] == db.sources[x])
    && (forall x: nat :: x < |db.accounts| && Holds(t, OnAccount(x)) ==>
          x < |d.accounts| && d.accounts[x] == db.accounts[x])
  }

  /** A transaction that is not blocked holds or takes every row it writes, and nobody else holds it. */
  lemma NobodyHolds(s: State, other: nat, me: nat, l: Lock)
    requires Safe(s) && me in s.txs && other in s.txs && other != me && !Blocked(s, other)
    requires Holds(s.txs[other], l) || Wants(s.db, s.txs[other]) == Some(l)
    ensures !Holds(s.txs[me], l)
  {
    assert !Waits(s, other, me);
  }

  lemma StartWritesElsewhere(s: State, me: nat, other: nat, ids: seq<nat>)
    requires Safe(s) && me in s.txs && other in s.txs && other != me && !Blocked(s, other) && s.txs[other].Starting?
    ensures LockedRowsStay(s.db, Advanced(s, other, ids, "", 0).db, s.txs[me])
  {
    NobodyHolds(s, other, me, OnSource(s.txs[other].s));
  }

  lemma FillWritesElsewhere(s: State, me: nat, other: nat, now: int)
    requires Safe(s) && me in s.txs && other in s.txs && other != me && !Blocked(s, other) && s.txs[other].Filling?
    ensures LockedRowsStay(s.db, FillNext(s, other, s.txs[other], now).db, s.txs[me])
  {
    var t := s.txs[other];
    assert TxOk(s.db, t);
    NobodyHolds(s, other, me, OnSource(t.s));
    if Wants(s.db, t).Some? { NobodyHolds(s, other, me, OnAccount(t.todo[0])); }
  }

  lemma MatchWritesElsewhere(s: State, me: nat, other: nat, now: int)
    requires Safe(s) && me in s.txs && other in s.txs && other != me && !Blocked(s, other) && s.txs[other].Matching?
    ensures LockedRowsStay(s.db, MatchNow(s, other, s.txs[other], now).db, s.txs[me])
  {
    NobodyHolds(s, other, me, OnSource(s.txs[other].s));
    NobodyHolds(s, other, me, OnAccount(s.txs[other].a));
  }

  lemma UndoWritesElsewhere(s: State, me: nat, other: nat, reason: string)
    requires Safe(s) && me in s.txs && other in s.txs && other != me && !Blocked(s, other) && s.txs[other].UndoingRow?
    ensures LockedRowsStay(s.db, UndoNow(s, other, s.txs[other], reason).db, s.txs[me])
  {
    assert TxOk(s.db, s.txs[other]);
    NobodyHolds(s, other, me, OnSource(s.txs[other].s));
    NobodyHolds(s, other, me, OnAccount(s.txs[other].a));
  }

  lemma OthersWriteElsewhere(s: State, a: Action, me: nat)
    requires Safe(s) && me in s.txs && a.Advance? && a.tx in s.txs && a.tx != me && !Blocked(s, a.tx)
    ensures LockedRowsStay(s.db, Do(s, a).db, s.txs[me])
  {
    match s.txs[a.tx]
    case Starting(_, _) => StartWritesElsewhere(s, me, a.tx, a.ids);
    case Filling(_, _, _) => FillWritesElsewhere(s, me, a.tx, a.now);
    case Matching(_, _, _) => MatchWritesElsewhere(s, me, a.tx, a.now);
    case Undoing(_, _, _, _) =>
    case UndoingRow(_, _, _, _) => UndoWritesElsewhere(s, me, a.tx, a.reason);
    case Done(_, _, _) =>
  }

  lemma StepKeepsLockedRows(s: State, a: Action, me: nat)
    requires Safe(s) && me in s.txs && (a.NewAccount? || a.tx != me)
    ensures LockedRowsStay(s.db, Do(s, a).db, s.txs[me])
  {
    if a.Advance? && a.tx in s.txs && !Blocked(s, a.tx) { OthersWriteElsewhere(s, a, me); }
  }

  /** The transaction works through `list`, or has stopped somewhere in it. */
  predicate WorksThrough(t: Tx, src: nat, list: seq<nat>) {
    (t.Filling? && t.s == src && t.held + t.todo == list) || (t.Done? && t.s == src && t.accounts <= list)
  }

  /** Its source is used up, or it went through all of the list and every account in it is settled or voided. */
  ghost predicate EndedMaximal(db: Db, t: Tx, src: nat, list: seq<nat>) {
    t.Done? ==>
      && src < |db.sources|
      && (Remaining(db.sources[src]) <= 0
          || (t.accounts == list && forall h :: 0 <= h < |list| ==> list[h] < |db.accounts| && Closed(db.accounts[list[h]])))
  }

  lemma OwnStepEndsMaximal(s: State, me: nat, ids: seq<nat>, reason: string, now: int, src: nat, list: seq<nat>)
    requires Safe(s) && me in s.txs && WorksThrough(s.txs[me], src, list) && EndedMaximal(s.db, s.txs[me], src, list)
    ensures
      var n := Do(s, Advance(me, ids, reason, now));
      me in n.txs && WorksThrough(n.txs[me], src, list) && EndedMaximal(n.db, n.txs[me], src, list)
  {
    var t := s.txs[me];
    assert TxOk(s.db, t);
    if t.Filling? && !Blocked(s, me) && Wants(s.db, t).Some? {
      assert t.held + [t.todo[0]] + t.todo[1..] == list;
    }
  }

  lemma LockedStaysMaximal(db: Db, d: Db, t: Tx, src: nat, list: seq<nat>)
    requires WorksThrough(t, src, list) && EndedMaximal(db, t, src, list) && LockedRowsStay(db, d, t)
    ensures EndedMaximal(d, t, src, list)
  {
    if t.Done? {
      assert Holds(t, OnSource(src));
      forall h | 0 <= h < |t.accounts| ensures Holds(t, OnAccount(t.accounts[h])) {}
    }
  }

  lemma OthersLeaveMyTx(s: State, a: Action, me: nat)
    requires me in s.txs && (a.NewAccount? || a.tx != me)
    ensures me in Do(s, a).txs && Do(s, a).txs[me] == s.txs[me]
  {}

  lemma OtherStepStaysMaximal(s: State, a: Action, me: nat, src: nat, list: seq<nat>)
    requires Safe(s) && me in s.txs && WorksThrough(s.txs[me], src, list) && EndedMaximal(s.db, s.txs[me], src, list)
    requires a.NewAccount? || a.tx != me
    ensures
      var n := Do(s, a);
      me in n.txs && WorksThrough(n.txs[me], src, list) && EndedMaximal(n.db, n.txs[me], src, list)
  {
    StepKeepsLockedRows(s, a, me);
    OthersLeaveMyTx(s, a, me);
    LockedStaysMaximal(s.db, Do(s, a).db, s.txs[me], src, list);
  }

  /** Whatever runs beside it, an automatic allocation that was given a list stops only with its source used up,
      or after the whole list, every account of it settled or voided; and it stays so until it commits. */
  lemma {:induction false} FillEndsMaximal(s: State, me: nat, src: nat, list: seq<nat>, actions: seq<Action>)
    requires Safe(s) && me in s.txs && WorksThrough(s.txs[me], src, list) && EndedMaximal(s.db, s.txs[me], src, list)
    requires Commit(me) !in actions
    ensures
      var n := Run(s, actions);
      me in n.txs && WorksThrough(n.txs[me], src, list) && EndedMaximal(n.db, n.txs[me], src, list)
    decreases |actions|
  {
    if actions != [] {
      var a := actions[0];
      DoKeepsSafe(s, a);
      if a.Advance? && a.tx == me {
        OwnStepEndsMaximal(s, me, a.ids, a.reason, a.now, src, list);
      } else if a.NewAccount? || a.tx != me {
        OtherStepStaysMaximal(s, a, me, src, list);
      }
      FillEndsMaximal(Do(s, a), me, src, list, actions[1..]);
    }
  }

  /** From the step that reads the list on: a registration or a claim that starts to fill is maximal on the whole
      list its query returned. */
  lemma AutoAllocationEndsMaximal(s: State, a: Action, me: nat, actions: seq<Action>)
    requires Safe(s) && (a.Register? || a.Advance?) && a.tx == me && Commit(me) !in actions
    requires me !in s.txs || s.txs[me].Starting?
    requires me in Do(s, a).txs && Do(s, a).txs[me].Filling?
    ensures
      var src := Do(s, a).txs[me].s;
      var n := Run(Do(s, a), actions);
      me in n.txs && WorksThrough(n.txs[me], src, a.ids) && EndedMaximal(n.db, n.txs[me], src, a.ids)
  {
    DoKeepsSafe(s, a);
    assert [] + a.ids == a.ids;
    FillEndsMaximal(Do(s, a), me, Do(s, a).txs[me].s, a.ids, actions);
  }
}
