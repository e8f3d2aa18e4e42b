/** Refresh-token families: rotation, replay, logout and the purge that logins run,
    as transactions whose steps interleave at row-lock granularity. */
module RefreshFamilies {
  import opened Base

  const LIFETIME := 7 * 86400
  const GRACE := 60

  datatype Family = Family(createdAt: int, revokedAt: Option<int>)

  /** Where a token came from. `presentedAt` is the `now` its refresh captured on arrival.
      No column holds this: it is history, kept to state the replay window. */
  datatype Origin = FirstOfFamily | Rotation(parent: nat, presentedAt: int)

  datatype Token = Token(
    family: nat, issuedAt: int, expiresAt: int,
    usedAt: Option<int>, replacedBy: Option<nat>, origin: Origin)

  /** An open transaction, by the last step it took. */
  datatype Tx =
    | Presented(token: nat, family: nat, now: int)
    | FamilyHeld(token: nat, family: nat, now: int)
    | RowHeld(token: nat, family: nat, now: int)
    | Minted(token: nat, family: nat, now: int, issuedAt: int, first: bool)
    | Leaving(family: nat)
    | Revoking(family: nat, row: Option<nat>, at: int)
    | Purging(cut: int, todo: set<nat>, dead: set<nat>)
    | Sweeping(dead: set<nat>, left: set<nat>, gone: set<nat>)
    | Opening(dead: set<nat>, gone: set<nat>, createdAt: int, issuedAt: int)

  datatype Row = FamilyRow(id: nat) | TokenRow(id: nat)

  /** The committed rows, the clock, and the open transactions. Ids are commit order. */
  datatype State = State(
    clock: int,
    families: map<nat, Family>, tokens: map<nat, Token>,
    nextFamily: nat, nextToken: nat,
    txs: map<nat, Tx>)

  datatype Action =
    | Tick(seconds: nat)
    | Present(tx: nat, token: nat)
    | LockFamily(tx: nat)
    | LockRow(tx: nat)
    | Decide(tx: nat)
    | Logout(tx: nat, token: nat)
    | RevokeOnLogout(tx: nat)
    | BeginLogin(tx: nat)
    | PurgeToken(tx: nat, token: nat)
    | Sweep(tx: nat)
    | PurgeFamily(tx: nat, family: nat)
    | Open(tx: nat)
    | ChangePassword(tx: nat)
    | Commit(tx: nat)
    | Abort(tx: nat)

  predicate Holds(t: Tx, r: Row) {
    match t
    case Presented(_, _, _) => false
    case FamilyHeld(_, f, _) => r == FamilyRow(f)
    case RowHeld(k, f, _) => r == FamilyRow(f) || r == TokenRow(k)
    case Minted(k, f, _, _, _) => r == FamilyRow(f) || r == TokenRow(k)
    case Leaving(_) => false
    case Revoking(f, row, _) => r == FamilyRow(f) || (row.Some? && r == TokenRow(row.value))
    case Purging(_, _, dead) => r.TokenRow? && r.id in dead
    case Sweeping(dead, _, gone) => if r.TokenRow? then r.id in dead else r.id in gone
    case Opening(dead, gone, _, _) => if r.TokenRow? then r.id in dead else r.id in gone
  }

  predicate Free(s: State, me: nat, r: Row) {
    forall i :: i in s.txs && i != me ==> !Holds(s.txs[i], r)
  }

  predicate Live(s: State, family: nat) {
    family in s.families && s.families[family].revokedAt.None?
  }

  function Put(s: State, me: nat, t: Tx): State {
    s.(txs := s.txs[me := t])
  }

  function Drop(s: State, me: nat): State {
    s.(txs := s.txs - {me})
  }

  // ----- refresh -----

  /** Step 1: read the clock, then the family id, without a lock. */
  function DoPresent(s: State, me: nat, token: nat): State {
    if me in s.txs || token !in s.tokens then s
    else Put(s, me, Presented(token, s.tokens[token].family, s.clock))
  }

  function DoLockFamily(s: State, me: nat): State {
    if me !in s.txs || !s.txs[me].Presented? then s
    else
      var t := s.txs[me];
      if !Free(s, me, FamilyRow(t.family)) then s
      else if !Live(s, t.family) then Drop(s, me)
      else Put(s, me, FamilyHeld(t.token, t.family, t.now))
  }

  function DoLockRow(s: State, me: nat): State {
    if me !in s.txs || !s.txs[me].FamilyHeld? then s
    else
      var t := s.txs[me];
      if !Free(s, me, TokenRow(t.token)) then s
      else if t.token !in s.tokens then Drop(s, me)
      else Put(s, me, RowHeld(t.token, t.family, t.now))
  }

  /** Step 3: refuse an expired token, revoke on a replay, otherwise flush a child. */
  function DoDecide(s: State, me: nat): State {
    if me !in s.txs || !s.txs[me].RowHeld? || s.txs[me].token !in s.tokens then s
    else
      var t := s.txs[me];
      var row := s.tokens[t.token];
      if row.expiresAt <= t.now then Drop(s, me)
      else if row.usedAt.Some? && t.now - row.usedAt.value > GRACE then
        Put(s, me, Revoking(t.family, Some(t.token), s.clock))
      else
        Put(s, me, Minted(t.token, t.family, t.now, s.clock, row.usedAt.None?))
  }

  // ----- logout -----

  function DoLogout(s: State, me: nat, token: nat): State {
    if me in s.txs || token !in s.tokens then s
    else Put(s, me, Leaving(s.tokens[token].family))
  }

  /** UPDATE … WHERE revoked_at IS NULL: waits for the row, and matches nothing twice. */
  function DoRevokeOnLogout(s: State, me: nat): State {
    if me !in s.txs || !s.txs[me].Leaving? then s
    else
      var f := s.txs[me].family;
      if !Free(s, me, FamilyRow(f)) then s
      else if !Live(s, f) then Drop(s, me)
      else Put(s, me, Revoking(f, None, s.clock))
  }

  // ----- login: purge, then open a family -----

  function DoBeginLogin(s: State, me: nat): State {
    if me in s.txs then s
    else Put(s, me, Purging(s.clock, set k | k in s.tokens && s.tokens[k].expiresAt <= s.clock, {}))
  }

  function DoPurgeToken(s: State, me: nat, token: nat): State {
    if me !in s.txs || !s.txs[me].Purging? || token !in s.txs[me].todo then s
    else
      var t := s.txs[me];
      if !Free(s, me, TokenRow(token)) then s
      else if token !in s.tokens then Put(s, me, t.(todo := t.todo - {token}))
      else Put(s, me, t.(todo := t.todo - {token}, dead := t.dead + {token}))
  }

  predicate Emptied(s: State, dead: set<nat>, family: nat) {
    forall k :: k in s.tokens && s.tokens[k].family == family ==> k in dead
  }

  /** The second DELETE takes its own snapshot of the committed rows. */
  function DoSweep(s: State, me: nat): State {
    if me !in s.txs || !s.txs[me].Purging? || s.txs[me].todo != {} then s
    else
      var dead := s.txs[me].dead;
      Put(s, me, Sweeping(dead, set f | f in s.families && Emptied(s, dead, f), {}))
  }

  function DoPurgeFamily(s: State, me: nat, family: nat): State {
    if me !in s.txs || !s.txs[me].Sweeping? || family !in s.txs[me].left then s
    else
      var t := s.txs[me];
      if !Free(s, me, FamilyRow(family)) then s
      else if family !in s.families then Put(s, me, t.(left := t.left - {family}))
      else Put(s, me, t.(left := t.left - {family}, gone := t.gone + {family}))
  }

  function DoOpen(s: State, me: nat): State {
    if me !in s.txs || !s.txs[me].Sweeping? || s.txs[me].left != {} then s
    else Put(s, me, Opening(s.txs[me].dead, s.txs[me].gone, s.clock, s.clock))
  }

  /** A password change opens a family without purging. */
  function DoChangePassword(s: State, me: nat): State {
    if me in s.txs then s
    else Put(s, me, Opening({}, {}, s.clock, s.clock))
  }

  // ----- commit -----

  function Child(t: Tx): Token
    requires t.Minted?
  {
    Token(t.family, t.issuedAt, t.issuedAt + LIFETIME, None, None, Rotation(t.token, t.now))
  }

  function CommitMint(s: State, t: Tx): State
    requires t.Minted?
  {
    var used :=
      if t.first && t.token in s.tokens
      then s.tokens[t.token := s.tokens[t.token].(usedAt := Some(t.now), replacedBy := Some(s.nextToken))]
      else s.tokens;
    s.(tokens := used[s.nextToken := Child(t)], nextToken := s.nextToken + 1)
  }

  function CommitRevoke(s: State, t: Tx): State
    requires t.Revoking?
  {
    if t.family !in s.families then s
    else s.(families := s.families[t.family := s.families[t.family].(revokedAt := Some(t.at))])
  }

  /** The successor foreign key is ON DELETE SET NULL. */
  function Without(tokens: map<nat, Token>, dead: set<nat>): map<nat, Token> {
    map k | k in tokens && k !in dead ::
      if tokens[k].replacedBy.Some? && tokens[k].replacedBy.value in dead
      then tokens[k].(replacedBy := None)
      else tokens[k]
  }

  function CommitOpen(s: State, t: Tx): State
    requires t.Opening?
  {
    s.(families := (s.families - t.gone)[s.nextFamily := Family(t.createdAt, None)],
       tokens := Without(s.tokens, t.dead)[s.nextToken :=
         Token(s.nextFamily, t.issuedAt, t.issuedAt + LIFETIME, None, None, FirstOfFamily)],
       nextFamily := s.nextFamily + 1,
       nextToken := s.nextToken + 1)
  }

  function DoCommit(s: State, me: nat): State {
    if me !in s.txs then s
    else
      match s.txs[me]
      case Minted(_, _, _, _, _) => Drop(CommitMint(s, s.txs[me]), me)
      case Revoking(_, _, _) => Drop(CommitRevoke(s, s.txs[me]), me)
      case Opening(_, _, _, _) => Drop(CommitOpen(s, s.txs[me]), me)
      case _ => s
  }

  /** One step; a step that must wait, or does not apply, changes nothing. */
  function Do(s: State, a: Action): State {
    match a
    case Tick(n) => s.(clock := s.clock + n)
    case Present(me, k) => DoPresent(s, me, k)
    case LockFamily(me) => DoLockFamily(s, me)
    case LockRow(me) => DoLockRow(s, me)
    case Decide(me) => DoDecide(s, me)
    case Logout(me, k) => DoLogout(s, me, k)
    case RevokeOnLogout(me) => DoRevokeOnLogout(s, me)
    case BeginLogin(me) => DoBeginLogin(s, me)
    case PurgeToken(me, k) => DoPurgeToken(s, me, k)
    case Sweep(me) => DoSweep(s, me)
    case PurgeFamily(me, f) => DoPurgeFamily(s, me, f)
    case Open(me) => DoOpen(s, me)
    case ChangePassword(me) => DoChangePassword(s, me)
    case Commit(me) => DoCommit(s, me)
    case Abort(me) => Drop(s, me)
  }

  function Run(s: State, actions: seq<Action>): State
    decreases |actions|
  {
    if actions == [] then s else Run(Do(s, actions[0]), actions[1..])
  }

  const EMPTY := State(0, map[], map[], 0, 0, map[])

  // ----- the invariant -----

  ghost predicate FamilyOk(s: State, f: nat)
    requires f in s.families
  {
    && f < s.nextFamily
    && s.families[f].createdAt <= s.clock
    && (s.families[f].revokedAt.Some? ==>
          s.families[f].createdAt <= s.families[f].revokedAt.value <= s.clock)
  }

  /** The CHECK and FOREIGN KEY constraints of the token row, and its place in the chain. */
  ghost predicate TokenOk(s: State, k: nat)
    requires k in s.tokens
  {
    var t := s.tokens[k];
    && k < s.nextToken
    && t.family in s.families
    && t.issuedAt <= s.clock && t.expiresAt == t.issuedAt + LIFETIME
    && (t.usedAt.Some? <==> t.replacedBy.Some?)
    && (t.usedAt.Some? ==> t.issuedAt <= t.usedAt.value <= s.clock)
    && (t.replacedBy.Some? ==> SuccessorOk(s, k, t.replacedBy.value))
    && (t.origin.Rotation? ==> OriginOk(s, k, t.origin.parent, t.origin.presentedAt))
  }

  ghost predicate SuccessorOk(s: State, k: nat, child: nat)
    requires k in s.tokens
  {
    && k < child && child in s.tokens
    && s.tokens[child].family == s.tokens[k].family
    && s.tokens[k].expiresAt <= s.tokens[child].expiresAt
    && s.tokens[k].usedAt.Some?
    && s.tokens[child].origin == Rotation(k, s.tokens[k].usedAt.value)
  }

  ghost predicate OriginOk(s: State, k: nat, parent: nat, presentedAt: int)
    requires k in s.tokens
  {
    && parent < k && presentedAt <= s.tokens[k].issuedAt
    && (parent in s.tokens ==>
          && s.tokens[parent].family == s.tokens[k].family
          && presentedAt < s.tokens[parent].expiresAt
          && s.tokens[parent].usedAt.Some?
          && presentedAt - s.tokens[parent].usedAt.value <= GRACE)
  }

  /** No row outside `dying` has its successor inside. */
  ghost predicate ParentsFirst(s: State, dying: set<nat>) {
    forall k :: k in s.tokens && s.tokens[k].replacedBy.Some? && s.tokens[k].replacedBy.value in dying
      ==> k in dying
  }

  ghost predicate Expired(s: State, ids: set<nat>) {
    forall k :: k in ids ==> k < s.nextToken && (k in s.tokens ==> s.tokens[k].expiresAt <= s.clock)
  }

  ghost predicate PresentedOk(s: State, token: nat, family: nat, now: int) {
    && now <= s.clock && token < s.nextToken && family < s.nextFamily
    && (token in s.tokens ==> s.tokens[token].family == family && s.tokens[token].issuedAt <= now)
  }

  ghost predicate AllEmptied(s: State, dead: set<nat>, families: set<nat>) {
    forall f :: f in families ==> f < s.nextFamily && Emptied(s, dead, f)
  }

  ghost predicate TxOk(s: State, t: Tx) {
    match t
    case Presented(k, f, now) => PresentedOk(s, k, f, now)
    case FamilyHeld(k, f, now) => PresentedOk(s, k, f, now) && Live(s, f)
    case RowHeld(k, f, now) => PresentedOk(s, k, f, now) && Live(s, f) && k in s.tokens
    case Minted(k, f, now, at, first) =>
      && PresentedOk(s, k, f, now) && Live(s, f) && k in s.tokens
      && now <= at <= s.clock && now < s.tokens[k].expiresAt
      && (first <==> s.tokens[k].usedAt.None?)
      && (!first ==> now - s.tokens[k].usedAt.value <= GRACE)
    case Leaving(f) => f < s.nextFamily
    case Revoking(f, row, at) => Live(s, f) && s.families[f].createdAt <= at <= s.clock
    case Purging(cut, todo, dead) =>
      && cut <= s.clock && dead <= s.tokens.Keys
      && Expired(s, todo + dead) && ParentsFirst(s, todo + dead)
    case Sweeping(dead, left, gone) =>
      && dead <= s.tokens.Keys && gone <= s.families.Keys
      && Expired(s, dead) && ParentsFirst(s, dead) && AllEmptied(s, dead, left + gone)
    case Opening(dead, gone, createdAt, issuedAt) =>
      && dead <= s.tokens.Keys && gone <= s.families.Keys
      && createdAt <= issuedAt <= s.clock
      && Expired(s, dead) && ParentsFirst(s, dead) && AllEmptied(s, dead, gone)
  }

  ghost predicate Exclusive(s: State) {
    forall i, j, r :: i in s.txs && j in s.txs && i != j && Holds(s.txs[i], r) ==> !Holds(s.txs[j], r)
  }

  ghost predicate RowsOk(s: State) {
    && (forall f :: f in s.families ==> FamilyOk(s, f))
    && (forall k :: k in s.tokens ==> TokenOk(s, k))
  }

  ghost predicate Inv(s: State) {
    && RowsOk(s)
    && (forall i :: i in s.txs ==> TxOk(s, s.txs[i]))
    && Exclusive(s)
  }

  // ----- every step keeps it -----

  lemma PutKeepsInv(s: State, me: nat, t: Tx)
    requires Inv(s) && TxOk(s, t)
    requires forall r :: Holds(t, r) ==> (me in s.txs && Holds(s.txs[me], r)) || Free(s, me, r)
    ensures Inv(Put(s, me, t))
  {
    var n := Put(s, me, t);
    SameRows(s, n);
    forall i | i in n.txs ensures TxOk(n, n.txs[i]) {
      SameTx(s, n, n.txs[i]);
    }
  }

  lemma SameRows(s: State, n: State)
    requires RowsOk(s) && n == s.(txs := n.txs)
    ensures RowsOk(n)
  {
    forall f | f in n.families ensures FamilyOk(n, f) { assert FamilyOk(s, f); }
    forall k | k in n.tokens ensures TokenOk(n, k) { assert TokenOk(s, k); }
  }

  lemma SameTx(s: State, n: State, t: Tx)
    requires TxOk(s, t) && n == s.(txs := n.txs)
    ensures TxOk(n, t)
  {
    forall dead, f | Emptied(s, dead, f) ensures Emptied(n, dead, f) {}
  }

  lemma DropKeepsInv(s: State, me: nat)
    requires Inv(s)
    ensures Inv(Drop(s, me))
  {
    var n := Drop(s, me);
    SameRows(s, n);
    forall i | i in n.txs ensures TxOk(n, n.txs[i]) {
      SameTx(s, n, n.txs[i]);
    }
  }

  lemma TickKeepsInv(s: State, seconds: nat)
    requires Inv(s)
    ensures Inv(s.(clock := s.clock + seconds))
  {
    var n := s.(clock := s.clock + seconds);
    forall f | f in n.families ensures FamilyOk(n, f) { assert FamilyOk(s, f); }
    forall k | k in n.tokens ensures TokenOk(n, k) { assert TokenOk(s, k); }
    forall i | i in n.txs ensures TxOk(n, n.txs[i]) {
      assert TxOk(s, s.txs[i]);
      forall dead, f | Emptied(s, dead, f) ensures Emptied(n, dead, f) {}
    }
  }

  lemma RefreshStepKeepsInv(s: State, me: nat, token: nat)
    requires Inv(s)
    ensures Inv(DoPresent(s, me, token))
    ensures Inv(DoLockFamily(s, me))
    ensures Inv(DoLockRow(s, me))
    ensures Inv(DoDecide(s, me))
  {
    if token in s.tokens && me !in s.txs {
      assert TokenOk(s, token) && FamilyOk(s, s.tokens[token].family);
      PutKeepsInv(s, me, Presented(token, s.tokens[token].family, s.clock));
    }
    if me in s.txs {
      var t := s.txs[me];
      assert TxOk(s, t);
      DropKeepsInv(s, me);
      if DoLockFamily(s, me) != s && Live(s, t.family) {
        PutKeepsInv(s, me, FamilyHeld(t.token, t.family, t.now));
      }
      if DoLockRow(s, me) != s && t.token in s.tokens {
        PutKeepsInv(s, me, RowHeld(t.token, t.family, t.now));
      }
      DecideKeepsInv(s, me);
    }
  }

  lemma DecideKeepsInv(s: State, me: nat)
    requires Inv(s) && me in s.txs
    ensures Inv(DoDecide(s, me))
  {
    var t := s.txs[me];
    assert TxOk(s, t);
    if DoDecide(s, me) != s {
      var row := s.tokens[t.token];
      assert TokenOk(s, t.token) && FamilyOk(s, t.family);
      if row.expiresAt <= t.now {
        DropKeepsInv(s, me);
      } else if row.usedAt.Some? && t.now - row.usedAt.value > GRACE {
        PutKeepsInv(s, me, Revoking(t.family, Some(t.token), s.clock));
      } else {
        PutKeepsInv(s, me, Minted(t.token, t.family, t.now, s.clock, row.usedAt.None?));
      }
    }
  }

  lemma LogoutStepKeepsInv(s: State, me: nat, token: nat)
    requires Inv(s)
    ensures Inv(DoLogout(s, me, token))
    ensures Inv(DoRevokeOnLogout(s, me))
  {
    if token in s.tokens && me !in s.txs {
      assert TokenOk(s, token) && FamilyOk(s, s.tokens[token].family);
      PutKeepsInv(s, me, Leaving(s.tokens[token].family));
    }
    if me in s.txs {
      var t := s.txs[me];
      DropKeepsInv(s, me);
      if DoRevokeOnLogout(s, me) != s && Live(s, t.family) {
        assert FamilyOk(s, t.family);
        PutKeepsInv(s, me, Revoking(t.family, None, s.clock));
      }
    }
  }

  lemma PurgeStepKeepsInv(s: State, me: nat, token: nat)
    requires Inv(s)
    ensures Inv(DoBeginLogin(s, me))
    ensures Inv(DoPurgeToken(s, me, token))
  {
    if me !in s.txs {
      var todo := set k | k in s.tokens && s.tokens[k].expiresAt <= s.clock;
      forall k | k in s.tokens ensures TokenOk(s, k) {}
      assert todo + {} == todo;
      PutKeepsInv(s, me, Purging(s.clock, todo, {}));
    } else if DoPurgeToken(s, me, token) != s {
      var t := s.txs[me];
      assert TxOk(s, t);
      if token !in s.tokens {
        forall k | k in s.tokens ensures TokenOk(s, k) {}
        PutKeepsInv(s, me, t.(todo := t.todo - {token}));
      } else {
        assert t.todo - {token} + (t.dead + {token}) == t.todo + t.dead;
        PutKeepsInv(s, me, t.(todo := t.todo - {token}, dead := t.dead + {token}));
      }
    }
  }

  lemma SweepStepKeepsInv(s: State, me: nat, family: nat)
    requires Inv(s)
    ensures Inv(DoSweep(s, me))
    ensures Inv(DoPurgeFamily(s, me, family))
    ensures Inv(DoOpen(s, me))
    ensures Inv(DoChangePassword(s, me))
  {
    if me !in s.txs {
      PutKeepsInv(s, me, Opening({}, {}, s.clock, s.clock));
    } else {
      var t := s.txs[me];
      assert TxOk(s, t);
      if DoSweep(s, me) != s {
        var left := set f | f in s.families && Emptied(s, t.dead, f);
        assert t.todo + t.dead == t.dead && left + {} == left;
        forall f | f in left ensures FamilyOk(s, f) {}
        PutKeepsInv(s, me, Sweeping(t.dead, left, {}));
      }
      if DoPurgeFamily(s, me, family) != s {
        var left := t.left - {family};
        if family !in s.families {
          PutKeepsInv(s, me, t.(left := left));
        } else {
          assert left + (t.gone + {family}) == t.left + t.gone;
          PutKeepsInv(s, me, t.(left := left, gone := t.gone + {family}));
        }
      }
      if DoOpen(s, me) != s {
        assert t.left + t.gone == t.gone;
        PutKeepsInv(s, me, Opening(t.dead, t.gone, s.clock, s.clock));
      }
    }
  }

  // ----- commits -----

  /** A minting refresh and any other open transaction never share a row. */
  lemma OthersKeepOff(s: State, me: nat, other: nat)
    requires Inv(s) && me in s.txs && other in s.txs && me != other && s.txs[me].Minted?
    ensures !Holds(s.txs[other], TokenRow(s.txs[me].token)) && !Holds(s.txs[other], FamilyRow(s.txs[me].family))
  {
    assert Holds(s.txs[me], TokenRow(s.txs[me].token));
    assert Holds(s.txs[me], FamilyRow(s.txs[me].family));
  }

  lemma MintKeepsRows(s: State, me: nat)
    requires Inv(s) && me in s.txs && s.txs[me].Minted?
    ensures RowsOk(CommitMint(s, s.txs[me]))
  {
    var t, n := s.txs[me], CommitMint(s, s.txs[me]);
    assert TxOk(s, t) && TokenOk(s, t.token);
    forall f | f in n.families ensures FamilyOk(n, f) { assert FamilyOk(s, f); }
    forall k | k in n.tokens ensures TokenOk(n, k) {
      if k in s.tokens { assert TokenOk(s, k); }
    }
  }

  lemma MintKeepsTx(s: State, me: nat, other: nat)
    requires Inv(s) && me in s.txs && s.txs[me].Minted? && other in s.txs && other != me
    ensures TxOk(CommitMint(s, s.txs[me]), s.txs[other])
  {
    var t, n, o := s.txs[me], CommitMint(s, s.txs[me]), s.txs[other];
    assert TxOk(s, t) && TxOk(s, o);
    OthersKeepOff(s, me, other);
    forall dying | Expired(s, dying) && ParentsFirst(s, dying) ensures ParentsFirst(n, dying) {}
    assert s.tokens[t.token].family == t.family;
    forall dead, f | Emptied(s, dead, f) && t.token !in dead ensures Emptied(n, dead, f) {}
  }

  lemma CommitMintKeepsInv(s: State, me: nat)
    requires Inv(s) && me in s.txs && s.txs[me].Minted?
    ensures Inv(DoCommit(s, me))
  {
    var m := CommitMint(s, s.txs[me]);
    var n := Drop(m, me);
    MintKeepsRows(s, me);
    SameRows(m, n);
    forall i | i in n.txs ensures TxOk(n, n.txs[i]) {
      MintKeepsTx(s, me, i);
      SameTx(m, n, s.txs[i]);
    }
  }

  lemma CommitRevokeKeepsInv(s: State, me: nat)
    requires Inv(s) && me in s.txs && s.txs[me].Revoking?
    ensures Inv(DoCommit(s, me))
  {
    var t := s.txs[me];
    var n := DoCommit(s, me);
    assert TxOk(s, t) && Holds(t, FamilyRow(t.family));
    forall f | f in n.families ensures FamilyOk(n, f) { assert FamilyOk(s, f); }
    forall k | k in n.tokens ensures TokenOk(n, k) { assert TokenOk(s, k); }
    forall i | i in n.txs ensures TxOk(n, n.txs[i]) {
      assert TxOk(s, s.txs[i]) && !Holds(s.txs[i], FamilyRow(t.family));
      forall dead, f | Emptied(s, dead, f) ensures Emptied(n, dead, f) {}
    }
  }

  /** Deleting parents first leaves no dangling successor: SET NULL has nothing to do. */
  lemma NoSuccessorDangles(s: State, dead: set<nat>)
    requires ParentsFirst(s, dead)
    ensures Without(s.tokens, dead) == s.tokens - dead
  {
    var w := Without(s.tokens, dead);
    assert w.Keys == s.tokens.Keys - dead;
    forall k | k in w ensures w[k] == s.tokens[k] {}
  }

  lemma OpenKeepsRows(s: State, me: nat)
    requires Inv(s) && me in s.txs && s.txs[me].Opening?
    ensures RowsOk(CommitOpen(s, s.txs[me]))
  {
    var t, n := s.txs[me], CommitOpen(s, s.txs[me]);
    assert TxOk(s, t);
    NoSuccessorDangles(s, t.dead);
    forall f | f in n.families ensures FamilyOk(n, f) {
      if f != s.nextFamily { assert FamilyOk(s, f); }
    }
    forall k | k in n.tokens ensures TokenOk(n, k) {
      if k != s.nextToken {
        assert TokenOk(s, k) && k !in t.dead;
        forall f | f in t.gone ensures s.tokens[k].family != f { assert Emptied(s, t.dead, f); }
        assert s.tokens[k].family < s.nextFamily by { assert FamilyOk(s, s.tokens[k].family); }
        assert n.tokens[k] == s.tokens[k];
      }
    }
  }

  lemma OpenKeepsTx(s: State, me: nat, other: nat)
    requires Inv(s) && me in s.txs && s.txs[me].Opening? && other in s.txs && other != me
    ensures TxOk(CommitOpen(s, s.txs[me]), s.txs[other])
  {
    var t, n, o := s.txs[me], CommitOpen(s, s.txs[me]), s.txs[other];
    assert TxOk(s, t) && TxOk(s, o);
    NoSuccessorDangles(s, t.dead);
    forall r | Holds(o, r) ensures !Holds(t, r) {}
    forall k | Holds(o, TokenRow(k)) ensures k !in t.dead { assert !Holds(t, TokenRow(k)); }
    forall f | Holds(o, FamilyRow(f)) ensures f !in t.gone { assert !Holds(t, FamilyRow(f)); }
    forall dead, f: nat | Emptied(s, dead, f) && f < s.nextFamily ensures Emptied(n, dead, f) {}
    if o.Purging? || o.Sweeping? || o.Opening? {
      forall k | k in o.dead ensures k in n.tokens { assert Holds(o, TokenRow(k)); }
    }
    if o.Sweeping? || o.Opening? {
      forall f | f in o.gone ensures f in n.families { assert Holds(o, FamilyRow(f)); }
    }
  }

  lemma CommitOpenKeepsInv(s: State, me: nat)
    requires Inv(s) && me in s.txs && s.txs[me].Opening?
    ensures Inv(DoCommit(s, me))
  {
    var m := CommitOpen(s, s.txs[me]);
    var n := Drop(m, me);
    OpenKeepsRows(s, me);
    SameRows(m, n);
    forall i | i in n.txs ensures TxOk(n, n.txs[i]) {
      OpenKeepsTx(s, me, i);
      SameTx(m, n, s.txs[i]);
    }
  }

  lemma CommitKeepsInv(s: State, me: nat)
    requires Inv(s)
    ensures Inv(DoCommit(s, me))
  {
    if me in s.txs {
      if s.txs[me].Minted? { CommitMintKeepsInv(s, me); }
      if s.txs[me].Revoking? { CommitRevokeKeepsInv(s, me); }
      if s.txs[me].Opening? { CommitOpenKeepsInv(s, me); }
    }
  }

  predicate OnSession(a: Action) {
    a.Present? || a.LockFamily? || a.LockRow? || a.Decide? || a.Logout? || a.RevokeOnLogout?
  }

  lemma SessionStepKeepsInv(s: State, a: Action)
    requires Inv(s) && OnSession(a)
    ensures Inv(Do(s, a))
  {
    match a
    case Present(me, k) => RefreshStepKeepsInv(s, me, k);
    case LockFamily(me) => RefreshStepKeepsInv(s, me, 0);
    case LockRow(me) => RefreshStepKeepsInv(s, me, 0);
    case Decide(me) => RefreshStepKeepsInv(s, me, 0);
    case Logout(me, k) => LogoutStepKeepsInv(s, me, k);
    case RevokeOnLogout(me) => LogoutStepKeepsInv(s, me, 0);
  }

  lemma LoginStepKeepsInv(s: State, a: Action)
    requires Inv(s) && !OnSession(a) && !a.Commit? && !a.Abort? && !a.Tick?
    ensures Inv(Do(s, a))
  {
    match a
    case BeginLogin(me) => PurgeStepKeepsInv(s, me, 0);
    case PurgeToken(me, k) => PurgeStepKeepsInv(s, me, k);
    case Sweep(me) => SweepStepKeepsInv(s, me, 0);
    case PurgeFamily(me, f) => SweepStepKeepsInv(s, me, f);
    case Open(me) => SweepStepKeepsInv(s, me, 0);
    case ChangePassword(me) => SweepStepKeepsInv(s, me, 0);
  }

  lemma CommitStepKeepsInv(s: State, a: Action)
    requires Inv(s) && a.Commit?
    ensures Inv(Do(s, a))
  {
    CommitKeepsInv(s, a.tx);
  }

  lemma AbortStepKeepsInv(s: State, a: Action)
    requires Inv(s) && a.Abort?
    ensures Inv(Do(s, a))
  {
    DropKeepsInv(s, a.tx);
  }

  lemma TickStepKeepsInv(s: State, a: Action)
    requires Inv(s) && a.Tick?
    ensures Inv(Do(s, a))
  {
    TickKeepsInv(s, a.seconds);
  }

  lemma DoKeepsInv(s: State, a: Action)
    requires Inv(s)
    ensures Inv(Do(s, a))
  {
    if OnSession(a) {
      SessionStepKeepsInv(s, a);
    } else if a.Commit? {
      CommitStepKeepsInv(s, a);
    } else if a.Abort? {
      AbortStepKeepsInv(s, a);
    } else if a.Tick? {
      TickStepKeepsInv(s, a);
    } else {
      LoginStepKeepsInv(s, a);
    }
  }

  lemma {:induction false} RunKeepsInv(s: State, actions: seq<Action>)
    requires Inv(s)
    ensures Inv(Run(s, actions))
    decreases |actions|
  {
    if actions != [] {
      DoKeepsInv(s, actions[0]);
      RunKeepsInv(Do(s, actions[0]), actions[1..]);
    }
  }

  // ----- revocation is final -----

  /** A family id once given out, whose row is revoked or already purged. */
  ghost predicate Shut(s: State, family: nat) {
    family < s.nextFamily && !Live(s, family)
  }

  ghost predicate NoNewTokens(s: State, n: State, family: nat) {
    forall k :: k in n.tokens && n.tokens[k].family == family ==> k in s.tokens && s.tokens[k].family == family
  }

  /** Only a commit touches the rows. */
  lemma OnlyCommitsWrite(s: State, a: Action)
    requires !a.Commit?
    ensures Do(s, a).families == s.families && Do(s, a).tokens == s.tokens
    ensures Do(s, a).nextFamily == s.nextFamily && Do(s, a).nextToken == s.nextToken
  {}

  lemma ShutStays(s: State, a: Action, family: nat)
    requires Inv(s) && Shut(s, family)
    ensures Shut(Do(s, a), family) && NoNewTokens(s, Do(s, a), family)
  {
    if a.Commit? {
      if a.tx in s.txs { ShutStaysOnCommit(s, a.tx, family); }
    } else {
      OnlyCommitsWrite(s, a);
    }
  }

  lemma ShutStaysOnCommit(s: State, me: nat, family: nat)
    requires Inv(s) && Shut(s, family) && me in s.txs
    ensures Shut(DoCommit(s, me), family) && NoNewTokens(s, DoCommit(s, me), family)
  {
    assert TxOk(s, s.txs[me]);
  }

  /** Once a revocation has committed, no step of any transaction, started before or after it,
      adds a token to the family: every refresh that already passed the unlocked read fails. */
  lemma {:induction false} RevokedFamilyMintsNothing(s: State, family: nat, actions: seq<Action>)
    requires Inv(s) && Shut(s, family)
    ensures Shut(Run(s, actions), family)
    ensures NoNewTokens(s, Run(s, actions), family)
    decreases |actions|
  {
    if actions != [] {
      DoKeepsInv(s, actions[0]);
      ShutStays(s, actions[0], family);
      RevokedFamilyMintsNothing(Do(s, actions[0]), family, actions[1..]);
    }
  }

  /** However much later, no refresh of a token of a family once shut gets as far as holding the rows it needs. */
  lemma ShutFamilyHasNoRefreshInFlight(s: State, family: nat, actions: seq<Action>, me: nat)
    requires Inv(s) && Shut(s, family)
    requires me in Run(s, actions).txs
    requires var t := Run(s, actions).txs[me]; t.FamilyHeld? || t.RowHeld? || t.Minted?
    ensures Run(s, actions).txs[me].family != family
  {
    RunKeepsInv(s, actions);
    RevokedFamilyMintsNothing(s, family, actions);
    assert TxOk(Run(s, actions), Run(s, actions).txs[me]);
  }

  /** Logout: from the unlocked read on, once it gets the row the family ends up shut,
      whoever else revoked or purged it meanwhile; the first revocation time stays. */
  lemma LogoutShutsTheFamily(s: State, me: nat)
    requires Inv(s) && me in s.txs && s.txs[me].Leaving? && Free(s, me, FamilyRow(s.txs[me].family))
    ensures Shut(Do(Do(s, RevokeOnLogout(me)), Commit(me)), s.txs[me].family)
    ensures !Live(s, s.txs[me].family) ==> Do(Do(s, RevokeOnLogout(me)), Commit(me)).families == s.families
  {
    assert TxOk(s, s.txs[me]);
  }

  // ----- what a refresh does under its locks -----

  /** The three outcomes, by the row as it is under the lock. A mint happens exactly when the
      token had not expired and is unused or was first used no more than the grace ago. */
  lemma RefreshMintsExactlyWhen(s: State, me: nat)
    requires Inv(s) && me in s.txs && s.txs[me].RowHeld?
    ensures
      var t := s.txs[me];
      var row := s.tokens[t.token];
      var n := Do(Do(s, Decide(me)), Commit(me));
      && (n.tokens != s.tokens <==>
            t.now < row.expiresAt && (row.usedAt.None? || t.now <= row.usedAt.value + GRACE))
      && (n.families != s.families <==>
            t.now < row.expiresAt && row.usedAt.Some? && t.now > row.usedAt.value + GRACE)
  {
    var t := s.txs[me];
    assert TxOk(s, t);
    assert TokenOk(s, t.token);
    var n := Do(Do(s, Decide(me)), Commit(me));
    forall k | k in s.tokens ensures k != s.nextToken { assert TokenOk(s, k); }
    if t.now < s.tokens[t.token].expiresAt {
      if s.tokens[t.token].usedAt.None? || t.now <= s.tokens[t.token].usedAt.value + GRACE {
        assert s.nextToken in n.tokens;
      } else {
        assert n.families[t.family].revokedAt != s.families[t.family].revokedAt;
      }
    }
  }

  /** Presenting a used token outside the window shuts its family for good and mints nothing. */
  lemma ReplayShutsTheFamily(s: State, me: nat)
    requires Inv(s) && me in s.txs && s.txs[me].RowHeld?
    requires
      var row := s.tokens[s.txs[me].token];
      row.expiresAt > s.txs[me].now && row.usedAt.Some? && s.txs[me].now > row.usedAt.value + GRACE
    ensures
      var n := Do(Do(s, Decide(me)), Commit(me));
      Shut(n, s.txs[me].family) && n.tokens == s.tokens
  {
    assert TxOk(s, s.txs[me]);
  }

  /** What a rotation writes: one child in the parent's family, and the parent's use if it is the first. */
  lemma RotationWrites(s: State, me: nat)
    requires Inv(s) && me in s.txs && s.txs[me].Minted?
    ensures
      var t := s.txs[me];
      var n := Do(s, Commit(me));
      var child := s.nextToken;
      && n.tokens.Keys == s.tokens.Keys + {child} && child !in s.tokens
      && n.tokens[child].family == s.tokens[t.token].family
      && n.tokens[child].usedAt.None?
      && n.tokens[child].expiresAt >= s.tokens[t.token].expiresAt
      && (forall k :: k in s.tokens && k != t.token ==> n.tokens[k] == s.tokens[k])
      && (if s.tokens[t.token].usedAt.None?
          then n.tokens[t.token].usedAt == Some(t.now) && n.tokens[t.token].replacedBy == Some(child)
          else n.tokens[t.token] == s.tokens[t.token])
  {
    assert TxOk(s, s.txs[me]);
    forall k | k in s.tokens ensures k < s.nextToken { assert TokenOk(s, k); }
    assert TokenOk(s, s.txs[me].token);
  }

  // ----- the chain -----

  lemma UseStays(s: State, a: Action, k: nat)
    requires Inv(s) && k in s.tokens && s.tokens[k].usedAt.Some?
    ensures k in Do(s, a).tokens ==> Do(s, a).tokens[k] == s.tokens[k]
  {
    assert TokenOk(s, k);
    if a.Commit? && a.tx in s.txs {
      var t := s.txs[a.tx];
      assert TxOk(s, t);
      if t.Opening? { NoSuccessorDangles(s, t.dead); }
    }
  }

  lemma GoneStays(s: State, a: Action, k: nat)
    requires Inv(s) && k < s.nextToken && k !in s.tokens
    ensures k < Do(s, a).nextToken && k !in Do(s, a).tokens
  {
    if a.Commit? && a.tx in s.txs { assert TxOk(s, s.txs[a.tx]); }
  }

  /** used_at and the successor are written once: whatever runs, a used row stays as it is until it is purged. */
  lemma {:induction false} UsedAtIsWrittenOnce(s: State, k: nat, actions: seq<Action>)
    requires Inv(s) && k < s.nextToken && (k in s.tokens ==> s.tokens[k].usedAt.Some?)
    ensures k in Run(s, actions).tokens ==> k in s.tokens && Run(s, actions).tokens[k] == s.tokens[k]
    decreases |actions|
  {
    if actions != [] {
      DoKeepsInv(s, actions[0]);
      var n := Do(s, actions[0]);
      if k in s.tokens { UseStays(s, actions[0], k); } else { GoneStays(s, actions[0], k); }
      assert s.nextToken <= n.nextToken;
      UsedAtIsWrittenOnce(n, k, actions[1..]);
    }
  }

  /** Follow successor pointers to the end of the chain. */
  ghost function Newest(s: State, k: nat): nat
    requires Inv(s) && k in s.tokens
    decreases s.nextToken - k
  {
    assert TokenOk(s, k);
    if s.tokens[k].replacedBy.None? then k
    else assert TokenOk(s, s.tokens[k].replacedBy.value); Newest(s, s.tokens[k].replacedBy.value)
  }

  /** The pointers are acyclic and stay inside the family: from every row they reach an unused one,
      and a row before the end never outlives it. */
  lemma {:induction false} ChainEndsUnused(s: State, k: nat)
    requires Inv(s) && k in s.tokens
    ensures
      var e := Newest(s, k);
      && k <= e && e in s.tokens && s.tokens[e].usedAt.None?
      && s.tokens[e].family == s.tokens[k].family
      && s.tokens[k].expiresAt <= s.tokens[e].expiresAt
      && (k == e <==> s.tokens[k].usedAt.None?)
    decreases s.nextToken - k
  {
    assert TokenOk(s, k);
    if s.tokens[k].replacedBy.Some? {
      assert TokenOk(s, s.tokens[k].replacedBy.value);
      ChainEndsUnused(s, s.tokens[k].replacedBy.value);
    }
  }

  /** Every child was presented within the grace of its parent's first use, and before the parent expired. */
  lemma ChildrenAreWithinGrace(s: State, child: nat)
    requires Inv(s) && child in s.tokens && s.tokens[child].origin.Rotation?
    requires s.tokens[child].origin.parent in s.tokens
    ensures
      var p := s.tokens[s.tokens[child].origin.parent];
      && p.usedAt.Some? && s.tokens[child].origin.presentedAt <= p.usedAt.value + GRACE
      && s.tokens[child].origin.presentedAt < p.expiresAt
      && p.family == s.tokens[child].family
  {
    assert TokenOk(s, child);
  }

  lemma CommitDeletesOnlyTheDead(s: State, me: nat)
    requires Inv(s) && me in s.txs
    ensures
      var n := DoCommit(s, me);
      && (forall k :: k in s.tokens && k !in n.tokens ==> s.tokens[k].expiresAt <= s.clock)
      && (forall f, k :: f in s.families && f !in n.families && k in n.tokens ==> n.tokens[k].family != f)
  {
    var t := s.txs[me];
    assert TxOk(s, t);
    if t.Opening? {
      NoSuccessorDangles(s, t.dead);
      forall f, k | f in t.gone && k in s.tokens && k !in t.dead ensures s.tokens[k].family != f {
        assert Emptied(s, t.dead, f);
      }
      forall f | f in s.families ensures f < s.nextFamily { assert FamilyOk(s, f); }
    }
  }

  /** Commits only ever delete rows that have expired, families that end up empty, and
      leave no token without its family, no used row without its successor. */
  lemma PurgeDeletesOnlyTheDead(s: State, a: Action)
    requires Inv(s)
    ensures
      var n := Do(s, a);
      && (forall k :: k in s.tokens && k !in n.tokens ==> s.tokens[k].expiresAt <= s.clock)
      && (forall f, k :: f in s.families && f !in n.families && k in n.tokens ==> n.tokens[k].family != f)
      && (forall k :: k in n.tokens ==> n.tokens[k].family in n.families)
      && (forall k :: k in n.tokens && n.tokens[k].usedAt.Some? ==>
            n.tokens[k].replacedBy.Some? && n.tokens[k].replacedBy.value in n.tokens)
  {
    var n := Do(s, a);
    DoKeepsInv(s, a);
    forall k | k in n.tokens ensures TokenOk(n, k) {}
    if !a.Commit? {
      OnlyCommitsWrite(s, a);
    } else if a.tx in s.txs {
      CommitDeletesOnlyTheDead(s, a.tx);
    }
  }
}
