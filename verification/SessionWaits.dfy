/**
 Who can wait for whom among refreshes, logouts, password changes and logins. Rotation locks the
 family before the token, the purge of a login the tokens before the families, and a DELETE visits
 its rows in no fixed order: chains of waits can close, but only through a login that is purging.
 */
module SessionWaits {
  import opened Base
  import opened RefreshFamilies
  import opened SoloSessions

  /** The rows a transaction's next step may need: a DELETE may come to any of its rows next. */
  predicate Wants(t: Tx, r: Row) {
    match t
    case Presented(_, f, _) => r == FamilyRow(f)
    case FamilyHeld(k, _, _) => r == TokenRow(k)
    case Leaving(f) => r == FamilyRow(f)
    case Purging(_, todo, _) => r.TokenRow? && r.id in todo
    case Sweeping(_, left, _) => r.FamilyRow? && r.id in left
    case _ => false
  }

  ghost predicate Waits(s: State, i: nat, j: nat) {
    i in s.txs && j in s.txs && i != j && exists r :: Wants(s.txs[i], r) && Holds(s.txs[j], r)
  }

  /** Each transaction of the chain waits for the next, and the last is the first. */
  ghost predicate Cycle(s: State, p: seq<nat>) {
    && |p| > 1 && p[|p| - 1] == p[0]
    && forall k :: 0 <= k < |p| - 1 ==> Waits(s, p[k], p[k + 1])
  }

  /** A login that has marked an expired token, or an emptied family, for deletion. */
  predicate HoldsPurgedRows(t: Tx) {
    (t.Purging? && t.dead != {}) || (t.Sweeping? && (t.dead != {} || t.gone != {}))
  }

  // ----- every cycle passes through a purging login -----

  /** Who waits and is waited for is a refresh between its two locks, or a login that purges. */
  lemma InTheMiddle(s: State, i: nat, j: nat, k: nat)
    requires Waits(s, i, j) && Waits(s, j, k)
    ensures s.txs[j].FamilyHeld? || HoldsPurgedRows(s.txs[j])
  {
    var r :| Wants(s.txs[i], r) && Holds(s.txs[j], r);
  }

  /** A refresh between its two locks waits for nobody but such a login, or for one that waits no more. */
  lemma RefreshWaitsForALogin(s: State, i: nat, j: nat, k: nat)
    requires Inv(s) && s.txs.Keys >= {i, j, k} && s.txs[i].FamilyHeld? && Waits(s, i, j) && Waits(s, j, k)
    ensures HoldsPurgedRows(s.txs[j])
  {
    InTheMiddle(s, i, j, k);
  }

  /** In every state the services reach, a chain of waits that returns to its start passes through a login
      that holds rows it purges. Refreshes, logouts and password changes among themselves never close one. */
  lemma CyclesPassThroughAPurge(s: State, p: seq<nat>)
    requires Inv(s) && Cycle(s, p)
    ensures exists k :: 0 <= k < |p| && p[k] in s.txs && HoldsPurgedRows(s.txs[p[k]])
  {
    var n := |p| - 1;
    assert Waits(s, p[0], p[1]) && Waits(s, p[n - 1], p[n]);
    if n > 1 {
      assert Waits(s, p[1], p[2]);
      InTheMiddle(s, p[0], p[1], p[2]);
      if !HoldsPurgedRows(s.txs[p[1]]) {
        var after := if n == 2 then p[1] else p[3];
        assert Waits(s, p[2], after);
        RefreshWaitsForALogin(s, p[1], p[2], after);
      }
    }
  }

  // ----- when two wait for each other -----

  /** A refresh between its locks and a login that has deleted its token and has still to delete its family. */
  predicate Crossed(a: Tx, b: Tx) {
    a.FamilyHeld? && b.Sweeping? && a.token in b.dead && a.family in b.left
  }

  /** Two logins in the same DELETE, each with a row the other wants. */
  predicate Tangled(a: Tx, b: Tx) {
    || (a.Purging? && b.Purging? && a.todo * b.dead != {} && b.todo * a.dead != {})
    || (a.Sweeping? && b.Sweeping? && a.left * b.gone != {} && b.left * a.gone != {})
  }

  /** Two transactions wait for each other in exactly two ways. */
  lemma TwoWaitExactlyWhen(s: State, i: nat, j: nat)
    requires Inv(s) && i in s.txs && j in s.txs && i != j
    ensures Waits(s, i, j) && Waits(s, j, i) <==>
              Crossed(s.txs[i], s.txs[j]) || Crossed(s.txs[j], s.txs[i]) || Tangled(s.txs[i], s.txs[j])
  {
    var a, b := s.txs[i], s.txs[j];
    assert TxOk(s, a) && TxOk(s, b);
    if Waits(s, i, j) && Waits(s, j, i) {
      var r :| Wants(a, r) && Holds(b, r);
      var q :| Wants(b, q) && Holds(a, q);
      if a.Purging? && b.Purging? { assert r.id in a.todo * b.dead && q.id in b.todo * a.dead; }
      if a.Sweeping? && b.Sweeping? { assert r.id in a.left * b.gone && q.id in b.left * a.gone; }
    }
    if Crossed(a, b) { CrossedWait(s, i, j); }
    if Crossed(b, a) { CrossedWait(s, j, i); }
    if Tangled(a, b) { TangledWait(s, i, j); }
  }

  lemma CrossedWait(s: State, i: nat, j: nat)
    requires i in s.txs && j in s.txs && i != j && Crossed(s.txs[i], s.txs[j])
    ensures Waits(s, i, j) && Waits(s, j, i)
  {
    var a, b := s.txs[i], s.txs[j];
    assert Wants(a, TokenRow(a.token)) && Holds(b, TokenRow(a.token));
    assert Wants(b, FamilyRow(a.family)) && Holds(a, FamilyRow(a.family));
  }

  lemma TangledWait(s: State, i: nat, j: nat)
    requires i in s.txs && j in s.txs && i != j && Tangled(s.txs[i], s.txs[j])
    ensures Waits(s, i, j) && Waits(s, j, i)
  {
    var a, b := s.txs[i], s.txs[j];
    if a.Purging? {
      var k :| k in a.todo * b.dead;
      var l :| l in b.todo * a.dead;
      assert Wants(a, TokenRow(k)) && Holds(b, TokenRow(k)) && Wants(b, TokenRow(l)) && Holds(a, TokenRow(l));
    } else {
      var f :| f in a.left * b.gone;
      var g :| g in b.left * a.gone;
      assert Wants(a, FamilyRow(f)) && Holds(b, FamilyRow(f)) && Wants(b, FamilyRow(g)) && Holds(a, FamilyRow(g));
    }
  }

  // ----- when nothing has expired -----

  /** No login deletes anything, and no family is without a token. */
  ghost predicate Unpurged(s: State) {
    && (forall f :: f in s.families ==> HasToken(s, f))
    && (forall i :: i in s.txs ==> Unburdened(s.txs[i]))
  }

  ghost predicate HasToken(s: State, f: nat) {
    exists k :: k in s.tokens && s.tokens[k].family == f
  }

  predicate Unburdened(t: Tx) {
    match t
    case Purging(_, todo, dead) => todo == {} && dead == {}
    case Sweeping(dead, left, gone) => dead == {} && left == {} && gone == {}
    case Opening(dead, gone, _, _) => dead == {} && gone == {}
    case _ => true
  }

  predicate NoneExpired(s: State) {
    forall k :: k in s.tokens ==> s.tokens[k].expiresAt > s.clock
  }

  /** Whenever a login begins, no token has expired. */
  predicate NothingToPurge(s: State, actions: seq<Action>)
    decreases |actions|
  {
    actions == [] || ((actions[0].BeginLogin? ==> NoneExpired(s)) && NothingToPurge(Do(s, actions[0]), actions[1..]))
  }

  lemma CommitStaysUnpurged(s: State, me: nat)
    requires Inv(s) && Unpurged(s)
    ensures Unpurged(Do(s, Commit(me)))
  {
    var n := Do(s, Commit(me));
    if me in s.txs && n != s {
      assert TxOk(s, s.txs[me]);
      forall k | k in s.tokens ensures k < s.nextToken && k in n.tokens && n.tokens[k].family == s.tokens[k].family {
        assert TokenOk(s, k);
      }
      forall f | f in n.families ensures HasToken(n, f) {
        if f in s.families {
          var k :| k in s.tokens && s.tokens[k].family == f;
          assert k in n.tokens;
        } else {
          assert n.tokens[s.nextToken].family == f;
        }
      }
    }
  }

  lemma SweepFindsNothing(s: State, me: nat)
    requires Unpurged(s)
    ensures Unpurged(Do(s, Sweep(me)))
  {
    forall f | f in s.families ensures !Emptied(s, {}, f) { assert HasToken(s, f); }
    forall f | f in Do(s, Sweep(me)).families ensures HasToken(Do(s, Sweep(me)), f) { assert HasToken(s, f); }
  }

  lemma StepStaysUnpurged(s: State, a: Action)
    requires Inv(s) && Unpurged(s) && (a.BeginLogin? ==> NoneExpired(s))
    ensures Unpurged(Do(s, a))
  {
    if a.Commit? {
      CommitStaysUnpurged(s, a.tx);
    } else if a.Sweep? {
      SweepFindsNothing(s, a.tx);
    } else {
      OnlyCommitsWrite(s, a);
      forall f | f in Do(s, a).families ensures HasToken(Do(s, a), f) { assert HasToken(s, f); }
    }
  }

  /** While no token has expired when a login begins, no chain of waits ever closes. */
  lemma {:induction false} UnpurgedRunsNeverClose(s: State, actions: seq<Action>, p: seq<nat>)
    requires Inv(s) && Unpurged(s) && NothingToPurge(s, actions)
    ensures !Cycle(Run(s, actions), p)
    decreases |actions|
  {
    if actions == [] {
      if Cycle(s, p) { CyclesPassThroughAPurge(s, p); }
    } else {
      DoKeepsInv(s, actions[0]);
      StepStaysUnpurged(s, actions[0]);
      UnpurgedRunsNeverClose(Do(s, actions[0]), actions[1..], p);
    }
  }

  lemma EmptyTablesAreUnpurged()
    ensures Inv(EMPTY) && Unpurged(EMPTY)
  {}

  // ----- and the schedules on which it does -----

  const FIRST := Token(0, 0, LIFETIME, None, None, FirstOfFamily)

  function OneFamily(clock: int, txs: map<nat, Tx>): State {
    State(clock, map[0 := Family(0, None)], map[0 := FIRST], 1, 1, txs)
  }

  lemma SignIn()
    ensures Run(EMPTY, [ChangePassword(0), Commit(0)]) == OneFamily(0, map[])
  {
    TwoSteps(EMPTY, ChangePassword(0), Commit(0));
    var n := Do(Do(EMPTY, ChangePassword(0)), Commit(0));
    assert n.families == map[0 := Family(0, None)];
    assert n.tokens == map[0 := FIRST];
    assert n.txs == map[];
  }

  lemma ThreeSteps(s: State, a: Action, b: Action, c: Action)
    ensures Run(s, [a, b, c]) == Do(Do(Do(s, a), b), c)
  {
    assert [a, b, c] == [a] + [b, c];
    OneStep(s, a, [b, c]);
    TwoSteps(Do(s, a), b, c);
  }

  const CROSSED := [ChangePassword(0), Commit(0)]
    + ([Tick(LIFETIME), BeginLogin(2), Present(1, 0)] + [LockFamily(1), PurgeToken(2, 0), Sweep(2)])

  lemma RefreshArrives()
    ensures
      Run(OneFamily(0, map[]), [Tick(LIFETIME), BeginLogin(2), Present(1, 0)])
      == OneFamily(LIFETIME, map[1 := Presented(0, 0, LIFETIME), 2 := Purging(LIFETIME, {0}, {})])
  {
    ThreeSteps(OneFamily(0, map[]), Tick(LIFETIME), BeginLogin(2), Present(1, 0));
    var b := Do(OneFamily(LIFETIME, map[]), BeginLogin(2));
    assert b.txs[2].todo == {0};
    assert Do(b, Present(1, 0)).txs == map[1 := Presented(0, 0, LIFETIME), 2 := Purging(LIFETIME, {0}, {})];
  }

  lemma RefreshTakesTheFamily()
    ensures
      Do(OneFamily(LIFETIME, map[1 := Presented(0, 0, LIFETIME), 2 := Purging(LIFETIME, {0}, {})]), LockFamily(1))
      == OneFamily(LIFETIME, map[1 := FamilyHeld(0, 0, LIFETIME), 2 := Purging(LIFETIME, {0}, {})])
  {
    var s := OneFamily(LIFETIME, map[1 := Presented(0, 0, LIFETIME), 2 := Purging(LIFETIME, {0}, {})]);
    assert Do(s, LockFamily(1)).txs == map[1 := FamilyHeld(0, 0, LIFETIME), 2 := Purging(LIFETIME, {0}, {})];
  }

  lemma LoginTakesTheToken()
    ensures
      Do(OneFamily(LIFETIME, map[1 := FamilyHeld(0, 0, LIFETIME), 2 := Purging(LIFETIME, {0}, {})]), PurgeToken(2, 0))
      == OneFamily(LIFETIME, map[1 := FamilyHeld(0, 0, LIFETIME), 2 := Purging(LIFETIME, {}, {0})])
  {
    var s := OneFamily(LIFETIME, map[1 := FamilyHeld(0, 0, LIFETIME), 2 := Purging(LIFETIME, {0}, {})]);
    var c := Do(s, PurgeToken(2, 0));
    assert c.txs[2].todo == {} && c.txs[2].dead == {0};
    assert c.txs == map[1 := FamilyHeld(0, 0, LIFETIME), 2 := Purging(LIFETIME, {}, {0})];
  }

  lemma LoginTurnsToFamilies()
    ensures
      Do(OneFamily(LIFETIME, map[1 := FamilyHeld(0, 0, LIFETIME), 2 := Purging(LIFETIME, {}, {0})]), Sweep(2))
      == OneFamily(LIFETIME, map[1 := FamilyHeld(0, 0, LIFETIME), 2 := Sweeping({0}, {0}, {})])
  {
    var s := OneFamily(LIFETIME, map[1 := FamilyHeld(0, 0, LIFETIME), 2 := Purging(LIFETIME, {}, {0})]);
    assert Do(s, Sweep(2)).txs[2].left == {0};
    assert Do(s, Sweep(2)).txs == map[1 := FamilyHeld(0, 0, LIFETIME), 2 := Sweeping({0}, {0}, {})];
  }

  /** A refresh of a token that is just expiring, and a login: each comes to wait for the row the other holds. */
  lemma RefreshAndPurgeCanWaitForEachOther()
    ensures var s := Run(EMPTY, CROSSED); s.txs.Keys == {1, 2} && Cycle(s, [1, 2, 1]) && Crossed(s.txs[1], s.txs[2])
  {
    SignIn();
    RefreshArrives();
    RefreshTakesTheFamily();
    LoginTakesTheToken();
    LoginTurnsToFamilies();
    ThreeSteps(Run(OneFamily(0, map[]), [Tick(LIFETIME), BeginLogin(2), Present(1, 0)]),
               LockFamily(1), PurgeToken(2, 0), Sweep(2));
    var late := [LockFamily(1), PurgeToken(2, 0), Sweep(2)];
    var middle := [Tick(LIFETIME), BeginLogin(2), Present(1, 0)];
    RunJoins(OneFamily(0, map[]), middle, late);
    RunJoins(EMPTY, [ChangePassword(0), Commit(0)], middle + late);
    CrossedWait(Run(EMPTY, CROSSED), 1, 2);
  }

  const SECOND := Token(1, 0, LIFETIME, None, None, FirstOfFamily)

  function TwoFamilies(clock: int, txs: map<nat, Tx>): State {
    State(clock, map[0 := Family(0, None), 1 := Family(0, None)], map[0 := FIRST, 1 := SECOND], 2, 2, txs)
  }

  lemma SignInAgain()
    ensures Run(OneFamily(0, map[]), [ChangePassword(0), Commit(0), Tick(LIFETIME)]) == TwoFamilies(LIFETIME, map[])
  {
    ThreeSteps(OneFamily(0, map[]), ChangePassword(0), Commit(0), Tick(LIFETIME));
    var n := Do(Do(OneFamily(0, map[]), ChangePassword(0)), Commit(0));
    assert n.families == TwoFamilies(0, map[]).families;
    assert n.tokens == TwoFamilies(0, map[]).tokens;
    assert n.txs == map[];
  }

  const TANGLED := [ChangePassword(0), Commit(0)]
    + ([ChangePassword(0), Commit(0), Tick(LIFETIME)]
       + ([BeginLogin(1), BeginLogin(2)] + [PurgeToken(1, 0), PurgeToken(2, 1)]))

  lemma TwoLoginsBegin()
    ensures
      Run(TwoFamilies(LIFETIME, map[]), [BeginLogin(1), BeginLogin(2)])
      == TwoFamilies(LIFETIME, map[1 := Purging(LIFETIME, {0, 1}, {}), 2 := Purging(LIFETIME, {0, 1}, {})])
  {
    var s := TwoFamilies(LIFETIME, map[]);
    TwoSteps(s, BeginLogin(1), BeginLogin(2));
    assert Do(s, BeginLogin(1)).txs[1].todo == {0, 1};
    assert Do(Do(s, BeginLogin(1)), BeginLogin(2)).txs[2].todo == {0, 1};
  }

  lemma TwoLoginsPurge()
    ensures
      Run(TwoFamilies(LIFETIME, map[1 := Purging(LIFETIME, {0, 1}, {}), 2 := Purging(LIFETIME, {0, 1}, {})]),
          [PurgeToken(1, 0), PurgeToken(2, 1)])
      == TwoFamilies(LIFETIME, map[1 := Purging(LIFETIME, {1}, {0}), 2 := Purging(LIFETIME, {0}, {1})])
  {
    var s := TwoFamilies(LIFETIME, map[1 := Purging(LIFETIME, {0, 1}, {}), 2 := Purging(LIFETIME, {0, 1}, {})]);
    TwoSteps(s, PurgeToken(1, 0), PurgeToken(2, 1));
    var a := Do(s, PurgeToken(1, 0));
    assert a.txs[1].todo == {1} && a.txs[1].dead == {0};
    assert a.txs == map[1 := Purging(LIFETIME, {1}, {0}), 2 := Purging(LIFETIME, {0, 1}, {})];
    var b := Do(a, PurgeToken(2, 1));
    assert b.txs[2].todo == {0} && b.txs[2].dead == {1};
    assert b.txs == map[1 := Purging(LIFETIME, {1}, {0}), 2 := Purging(LIFETIME, {0}, {1})];
  }

  /** Two logins that visit two expired tokens in opposite orders. */
  lemma TwoLoginsCanWaitForEachOther()
    ensures var s := Run(EMPTY, TANGLED); s.txs.Keys == {1, 2} && Cycle(s, [1, 2, 1]) && Tangled(s.txs[1], s.txs[2])
  {
    SignIn();
    SignInAgain();
    TwoLoginsBegin();
    TwoLoginsPurge();
    var begin, purge := [BeginLogin(1), BeginLogin(2)], [PurgeToken(1, 0), PurgeToken(2, 1)];
    var again := [ChangePassword(0), Commit(0), Tick(LIFETIME)];
    RunJoins(TwoFamilies(LIFETIME, map[]), begin, purge);
    RunJoins(OneFamily(0, map[]), again, begin + purge);
    RunJoins(EMPTY, [ChangePassword(0), Commit(0)], again + (begin + purge));
    var s := Run(EMPTY, TANGLED);
    assert 1 in s.txs[1].todo * s.txs[2].dead && 0 in s.txs[2].todo * s.txs[1].dead;
    TangledWait(s, 1, 2);
  }
}
