/**
 The settlement tables and the two row edits every writer is made of.

 Receipts, payments and customer credit memos are the sources of money; receivables and
 payables are the accounts it settles; an allocation row joins one source to one account.
 The three source tables are one table tagged by kind, and likewise the accounts and the
 allocations: an id is a row number, since rows are appended and never deleted. Amounts
 are integer cents. `matched` is the column amount_allocated.
 */
module LedgerRows {
  import opened Base

  datatype Kind = Receipt | Payment | CreditMemo

  datatype Side = Receivable | Payable

  /** A receipt or payment is Live until voided; a credit memo is Live once POSTED. */
  datatype Status = Pending | Live | Rejected | Voided

  datatype Source = Source(kind: Kind, party: Option<nat>, currency: string, amount: int,
                           matched: int, status: Status, createdAt: int, origin: nat, createdBy: nat)

  datatype Account = Account(side: Side, party: nat, currency: string, original: int,
                             credited: int, matched: int, dueAt: Option<int>,
                             createdAt: int, voided: bool)

  /** An idempotency key has the `auto:` shape or is other text; a caller may send either. */
  datatype Key = Text(text: string) | Auto(memo: nat, receivable: nat)

  datatype Alloc = Alloc(source: nat, account: nat, amount: int, auto: bool, createdAt: int,
                         reversed: bool, key: Option<Key>, undoKey: Option<Key>,
                         undoReason: string)

  /** A supplier (AP) credit memo; Live stands for POSTED. */
  datatype ApMemo = ApMemo(payable: nat, order: nat, amount: int, status: Status)

  datatype Db = Db(sources: seq<Source>, accounts: seq<Account>, allocs: seq<Alloc>,
                   memos: seq<ApMemo>)

  const EMPTY := Db([], [], [], [])
  const CNY := "CNY"

  function SideOf(kind: Kind): Side {
    if kind == Payment then Payable else Receivable
  }

  function Remaining(s: Source): int { s.amount - s.matched }

  function Outstanding(a: Account): int { a.original - a.credited - a.matched }

  // ---------- What the active rows add up to ----------

  datatype Owner = OfSource(id: nat) | OfAccount(id: nat)

  predicate Touches(row: Alloc, o: Owner) {
    match o
    case OfSource(s) => row.source == s
    case OfAccount(a) => row.account == a
  }

  function Weight(row: Alloc, o: Owner): int {
    if !row.reversed && Touches(row, o) then row.amount else 0
  }

  /** The sum of the active allocation rows of one source or account. */
  function Held(rows: seq<Alloc>, o: Owner): int {
    if rows == [] then 0 else Held(rows[..|rows| - 1], o) + Weight(rows[|rows| - 1], o)
  }

  /** The sum of the posted supplier credits of one payable. */
  function Credits(memos: seq<ApMemo>, payable: nat): int {
    if memos == [] then 0
    else
      var last := memos[|memos| - 1];
      Credits(memos[..|memos| - 1], payable)
      + if last.status == Live && last.payable == payable then last.amount else 0
  }

  lemma HeldAppend(rows: seq<Alloc>, row: Alloc, o: Owner)
    ensures Held(rows + [row], o) == Held(rows, o) + Weight(row, o)
  {
    assert (rows + [row])[..|rows|] == rows;
  }

  lemma {:induction false} HeldUpdate(rows: seq<Alloc>, i: nat, row: Alloc, o: Owner)
    requires i < |rows|
    ensures Held(rows[i := row], o) == Held(rows, o) - Weight(rows[i], o) + Weight(row, o)
  {
    var n := |rows| - 1;
    if i == n {
      assert rows[i := row][..n] == rows[..n];
    } else {
      HeldUpdate(rows[..n], i, row, o);
      assert rows[i := row][..n] == rows[..n][i := row];
    }
  }

  lemma {:induction false} HeldBounds(rows: seq<Alloc>, o: Owner)
    requires forall i :: 0 <= i < |rows| ==> rows[i].amount > 0
    ensures Held(rows, o) >= 0
    ensures forall i :: 0 <= i < |rows| && !rows[i].reversed && Touches(rows[i], o)
                        ==> rows[i].amount <= Held(rows, o)
  {
    if rows != [] {
      var n := |rows| - 1;
      HeldBounds(rows[..n], o);
      forall i | 0 <= i < |rows| && !rows[i].reversed && Touches(rows[i], o)
        ensures rows[i].amount <= Held(rows, o)
      {
        if i < n {
          assert rows[..n][i] == rows[i];
        }
      }
    }
  }

  lemma {:induction false} HeldNothing(rows: seq<Alloc>, o: Owner)
    requires forall i :: 0 <= i < |rows| && Touches(rows[i], o) ==> rows[i].reversed
    ensures Held(rows, o) == 0
  {
    if rows != [] {
      HeldNothing(rows[..|rows| - 1], o);
    }
  }

  lemma CreditsAppend(memos: seq<ApMemo>, m: ApMemo, payable: nat)
    ensures Credits(memos + [m], payable) == Credits(memos, payable)
            + if m.status == Live && m.payable == payable then m.amount else 0
  {
    assert (memos + [m])[..|memos|] == memos;
  }

  lemma {:induction false} CreditsUpdate(memos: seq<ApMemo>, i: nat, status: Status, payable: nat)
    requires i < |memos|
    ensures Credits(memos[i := memos[i].(status := status)], payable) == Credits(memos, payable)
            + (if status == Live && memos[i].payable == payable then memos[i].amount else 0)
            - (if memos[i].status == Live && memos[i].payable == payable then memos[i].amount else 0)
  {
    var n := |memos| - 1;
    var m := memos[i].(status := status);
    if i == n {
      assert memos[i := m][..n] == memos[..n];
    } else {
      CreditsUpdate(memos[..n], i, status, payable);
      assert memos[i := m][..n] == memos[..n][i := m];
    }
  }

  // ---------- The ledger invariant ----------

  /** An active row joins a live source and an account of the same party and currency. */
  predicate Joins(s: Source, a: Account) {
    s.status == Live && s.party == Some(a.party) && s.currency == a.currency
  }

  ghost predicate SourceOk(db: Db, s: nat)
    requires s < |db.sources|
  {
    var src := db.sources[s];
    && src.amount > 0
    && src.matched == Held(db.allocs, OfSource(s)) <= src.amount
    && (src.kind != Receipt ==> src.party.Some?)
    && (src.kind == CreditMemo ==> src.currency == CNY)
    && (src.kind != CreditMemo ==> src.status == Live || src.status == Voided)
  }

  ghost predicate AccountOk(db: Db, a: nat)
    requires a < |db.accounts|
  {
    var acc := db.accounts[a];
    && acc.original >= 0
    && acc.matched == Held(db.allocs, OfAccount(a))
    && acc.credited == (if acc.side == Payable then Credits(db.memos, a) else 0) >= 0
    && acc.matched + acc.credited <= acc.original
  }

  ghost predicate RowOk(db: Db, i: nat)
    requires i < |db.allocs|
  {
    var row := db.allocs[i];
    && row.source < |db.sources| && row.account < |db.accounts|
    && row.amount > 0
    && SideOf(db.sources[row.source].kind) == db.accounts[row.account].side
    && (db.sources[row.source].kind == CreditMemo <==> row.key.Some?)
    && (row.undoKey.Some? ==> row.reversed)
    && (row.reversed && row.key.Some? ==> row.undoKey.Some?)
    && (!row.reversed ==> Joins(db.sources[row.source], db.accounts[row.account]))
  }

  ghost predicate MemoOk(db: Db, m: nat)
    requires m < |db.memos|
  {
    var memo := db.memos[m];
    memo.payable < |db.accounts| && db.accounts[memo.payable].side == Payable && memo.amount > 0
  }

  predicate OpenMemo(m: ApMemo) { m.status == Pending || m.status == Live }

  /** At most one active row joins a receipt or payment to an account. */
  ghost predicate PairsOk(db: Db) {
    forall i, j :: 0 <= i < j < |db.allocs|
                   && !db.allocs[i].reversed && !db.allocs[j].reversed
                   && db.allocs[i].source == db.allocs[j].source
                   && db.allocs[i].account == db.allocs[j].account
                   ==> db.allocs[i].key.Some?
  }

  /** No two rows carry one idempotency key, and no two carry one reversal key. */
  ghost predicate KeysOk(db: Db) {
    && (forall i, j :: 0 <= i < j < |db.allocs| && db.allocs[i].key.Some?
                       ==> db.allocs[i].key != db.allocs[j].key)
    && (forall i, j :: 0 <= i < j < |db.allocs| && db.allocs[i].undoKey.Some?
                       ==> db.allocs[i].undoKey != db.allocs[j].undoKey)
  }

  ghost predicate OneOpenMemo(db: Db) {
    forall i, j :: 0 <= i < j < |db.memos| && OpenMemo(db.memos[i]) && OpenMemo(db.memos[j])
                   ==> db.memos[i].order != db.memos[j].order
  }

  ghost predicate Inv(db: Db) {
    && (forall s :: 0 <= s < |db.sources| ==> SourceOk(db, s))
    && (forall a :: 0 <= a < |db.accounts| ==> AccountOk(db, a))
    && (forall i :: 0 <= i < |db.allocs| ==> RowOk(db, i))
    && (forall m :: 0 <= m < |db.memos| ==> MemoOk(db, m))
    && PairsOk(db) && KeysOk(db) && OneOpenMemo(db)
  }

  // ---------- The two edits ----------

  /** Add an active row and raise both running totals. */
  function Attach(db: Db, row: Alloc): Db
    requires row.source < |db.sources| && row.account < |db.accounts|
  {
    var s, a := db.sources[row.source], db.accounts[row.account];
    db.(allocs := db.allocs + [row],
    sources := db.sources[row.source := s.(matched := s.matched + row.amount)],
    accounts := db.accounts[row.account := a.(matched := a.matched + row.amount)])
  }

  /** Soft-delete a row and lower both running totals; the row keeps its trace. */
  function Detach(db: Db, i: nat, undoKey: Option<Key>, reason: string): Db
    requires i < |db.allocs|
    requires db.allocs[i].source < |db.sources| && db.allocs[i].account < |db.accounts|
  {
    var row := db.allocs[i];
    var s, a := db.sources[row.source], db.accounts[row.account];
    db.(allocs := db.allocs[i := row.(reversed := true, undoKey := undoKey, undoReason := reason)],
    sources := db.sources[row.source := s.(matched := s.matched - row.amount)],
    accounts := db.accounts[row.account := a.(matched := a.matched - row.amount)])
  }

  predicate ActivePair(db: Db, s: nat, a: nat) {
    exists i :: 0 <= i < |db.allocs| && !db.allocs[i].reversed
                && db.allocs[i].source == s && db.allocs[i].account == a
  }

  predicate KeyUsed(db: Db, key: Key) {
    exists i :: 0 <= i < |db.allocs| && db.allocs[i].key == Some(key)
  }

  predicate UndoKeyUsed(db: Db, key: Key) {
    exists i :: 0 <= i < |db.allocs| && db.allocs[i].undoKey == Some(key)
  }

  /** When a row may be attached: what the guards of the writers establish. */
  ghost predicate Attachable(db: Db, row: Alloc) {
    && row.source < |db.sources| && row.account < |db.accounts|
    && var s, a := db.sources[row.source], db.accounts[row.account];
    && Joins(s, a) && SideOf(s.kind) == a.side
    && 0 < row.amount <= Remaining(s) && row.amount <= Outstanding(a)
    && !row.reversed && row.undoKey == None
    && (s.kind == CreditMemo <==> row.key.Some?)
    && (s.kind != CreditMemo ==> !ActivePair(db, row.source, row.account))
    && (row.key.Some? ==> !KeyUsed(db, row.key.value))
  }

  lemma AttachKeepsInv(db: Db, row: Alloc)
    requires Inv(db) && Attachable(db, row)
    ensures Inv(Attach(db, row))
  {
    var d := Attach(db, row);
    forall s | 0 <= s < |d.sources| ensures SourceOk(d, s) {
      assert SourceOk(db, s);
      HeldAppend(db.allocs, row, OfSource(s));
    }
    forall a | 0 <= a < |d.accounts| ensures AccountOk(d, a) {
      assert AccountOk(db, a);
      HeldAppend(db.allocs, row, OfAccount(a));
    }
    forall i | 0 <= i < |d.allocs| ensures RowOk(d, i) {
      if i < |db.allocs| {
        assert RowOk(db, i) && d.allocs[i] == db.allocs[i];
      }
    }
    forall m | 0 <= m < |d.memos| ensures MemoOk(d, m) {
      assert MemoOk(db, m);
    }
    assert PairsOk(d) by {
      forall i, j | 0 <= i < j < |d.allocs| && !d.allocs[i].reversed && !d.allocs[j].reversed
                    && d.allocs[i].source == d.allocs[j].source
                    && d.allocs[i].account == d.allocs[j].account
        ensures d.allocs[i].key.Some?
      {
        assert d.allocs[i] == db.allocs[i] && RowOk(db, i);
      }
    }
  }

  lemma DetachKeepsTotals(db: Db, i: nat, undoKey: Option<Key>, reason: string)
    requires Inv(db) && i < |db.allocs| && !db.allocs[i].reversed && RowOk(db, i)
    ensures var d := Detach(db, i, undoKey, reason);
            && (forall s :: 0 <= s < |d.sources| ==> SourceOk(d, s))
            && (forall a :: 0 <= a < |d.accounts| ==> AccountOk(d, a))
  {
    var d := Detach(db, i, undoKey, reason);
    forall j | 0 <= j < |db.allocs| ensures db.allocs[j].amount > 0 {
      assert RowOk(db, j);
    }
    forall s | 0 <= s < |d.sources| ensures SourceOk(d, s) {
      assert SourceOk(db, s);
      HeldUpdate(db.allocs, i, d.allocs[i], OfSource(s));
      HeldBounds(db.allocs, OfSource(s));
    }
    forall a | 0 <= a < |d.accounts| ensures AccountOk(d, a) {
      assert AccountOk(db, a);
      HeldUpdate(db.allocs, i, d.allocs[i], OfAccount(a));
      HeldBounds(db.allocs, OfAccount(a));
    }
  }

  lemma DetachKeepsInv(db: Db, i: nat, undoKey: Option<Key>, reason: string)
    requires Inv(db) && i < |db.allocs| && !db.allocs[i].reversed
    requires undoKey.Some? <==> db.allocs[i].key.Some?
    requires undoKey.Some? ==> !UndoKeyUsed(db, undoKey.value)
    ensures RowOk(db, i) && Inv(Detach(db, i, undoKey, reason))
  {
    assert RowOk(db, i);
    var d := Detach(db, i, undoKey, reason);
    DetachKeepsTotals(db, i, undoKey, reason);
    forall j | 0 <= j < |d.allocs| ensures RowOk(d, j) {
      assert RowOk(db, j);
    }
    forall m | 0 <= m < |d.memos| ensures MemoOk(d, m) {
      assert MemoOk(db, m);
    }
  }

  // ---------- History ----------

  /** What may happen to one row: it is reversed, or nothing. */
  predicate RowLater(before: Alloc, after: Alloc) {
    && after == before.(reversed := after.reversed, undoKey := after.undoKey, undoReason := after.undoReason)
    && (before.reversed ==> after == before)
  }

  ghost predicate History(before: seq<Alloc>, after: seq<Alloc>) {
    |before| <= |after| && forall i :: 0 <= i < |before| ==> RowLater(before[i], after[i])
  }
}
