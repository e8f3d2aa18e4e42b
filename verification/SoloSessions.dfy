/**
 Refresh, logout and login, each with no other transaction about: what the interleaved steps add
 up to. A login removes every expired token and every family it empties, and nothing else.
 */
module SoloSessions {
  import opened Base
  import opened RefreshFamilies

  function One(s: State, me: nat, t: Tx): State { s.(txs := map[me := t]) }

  function Idle(s: State): State { s.(txs := map[]) }

  lemma OneStep(s: State, a: Action, rest: seq<Action>)
    ensures Run(s, [a] + rest) == Run(Do(s, a), rest)
  {
    assert ([a] + rest)[1..] == rest;
  }

  lemma {:induction false} RunJoins(s: State, first: seq<Action>, rest: seq<Action>)
    ensures Run(s, first + rest) == Run(Run(s, first), rest)
    decreases |first|
  {
    if first == [] {
      assert first + rest == rest;
    } else {
      assert (first + rest)[1..] == first[1..] + rest;
      RunJoins(Do(s, first[0]), first[1..], rest);
    }
  }

  /** With nobody else about every row is free, and the transaction's place can be taken by its next step. */
  lemma AllFree(s: State, me: nat, t: Tx, u: Tx, r: Row)
    ensures Free(One(s, me, t), me, r) && Put(One(s, me, t), me, u) == One(s, me, u) && Drop(One(s, me, t), me) == Idle(s)
  {
    assert map[me := t][me := u] == map[me := u] && map[me := t] - {me} == map[];
  }

  // ---------- Login ----------

  lemma PurgesAll(s: State, me: nat, cut: int, todo: set<nat>, dead: set<nat>) returns (actions: seq<Action>)
    requires todo <= s.tokens.Keys
    ensures Run(One(s, me, Purging(cut, todo, dead)), actions) == One(s, me, Purging(cut, {}, dead + todo))
    decreases todo
  {
    if k :| k in todo {
      var next := Purging(cut, todo - {k}, dead + {k});
      AllFree(s, me, Purging(cut, todo, dead), next, TokenRow(k));
      var rest := PurgesAll(s, me, cut, todo - {k}, dead + {k});
      assert dead + {k} + (todo - {k}) == dead + todo;
      OneStep(One(s, me, Purging(cut, todo, dead)), PurgeToken(me, k), rest);
      actions := [PurgeToken(me, k)] + rest;
    } else {
      assert dead + todo == dead && todo == {};
      actions := [];
    }
  }

  lemma SweepsAll(s: State, me: nat, dead: set<nat>, left: set<nat>, gone: set<nat>) returns (actions: seq<Action>)
    requires left <= s.families.Keys
    ensures Run(One(s, me, Sweeping(dead, left, gone)), actions) == One(s, me, Sweeping(dead, {}, gone + left))
    decreases left
  {
    if f :| f in left {
      var next := Sweeping(dead, left - {f}, gone + {f});
      AllFree(s, me, Sweeping(dead, left, gone), next, FamilyRow(f));
      var rest := SweepsAll(s, me, dead, left - {f}, gone + {f});
      assert gone + {f} + (left - {f}) == gone + left;
      OneStep(One(s, me, Sweeping(dead, left, gone)), PurgeFamily(me, f), rest);
      actions := [PurgeFamily(me, f)] + rest;
    } else {
      assert gone + left == gone && left == {};
      actions := [];
    }
  }

  predicate Unexpired(s: State, k: nat) {
    k in s.tokens && s.tokens[k].expiresAt > s.clock
  }

  ghost predicate Peopled(s: State, f: nat) {
    exists k :: Unexpired(s, k) && s.tokens[k].family == f
  }

  /** n is s after a login: exactly the unexpired tokens are left, untouched, with exactly the families that
      have one, and one new token in one new family. */
  ghost predicate LoggedIn(s: State, n: State) {
    && n.clock == s.clock && n.nextFamily == s.nextFamily + 1 && n.nextToken == s.nextToken + 1
    && (forall k :: k in n.tokens <==> Unexpired(s, k) || k == s.nextToken)
    && (forall k :: Unexpired(s, k) ==> n.tokens[k] == s.tokens[k])
    && s.nextToken in n.tokens
    && n.tokens[s.nextToken] == Token(s.nextFamily, s.clock, s.clock + 7 * 86400, None, None, FirstOfFamily)
    && (forall f :: f in n.families <==> (f in s.families && Peopled(s, f)) || f == s.nextFamily)
    && (forall f :: f in s.families && Peopled(s, f) ==> n.families[f] == s.families[f])
    && s.nextFamily in n.families && n.families[s.nextFamily] == Family(s.clock, None)
  }

  function ExpiredTokens(s: State): set<nat> {
    set k | k in s.tokens && s.tokens[k].expiresAt <= s.clock
  }

  function EmptiedFamilies(s: State, dead: set<nat>): set<nat> {
    set f | f in s.families && Emptied(s, dead, f)
  }

  lemma OpeningLogsIn(s: State, me: nat)
    requires Inv(s) && s.txs == map[]
    ensures
      var dead := ExpiredTokens(s);
      var n := Do(One(s, me, Opening(dead, EmptiedFamilies(s, dead), s.clock, s.clock)), Commit(me));
      LoggedIn(s, n) && n.txs == map[]
  {
    var dead := ExpiredTokens(s);
    var gone := EmptiedFamilies(s, dead);
    var t := Opening(dead, gone, s.clock, s.clock);
    AllFree(s, me, t, t, FamilyRow(0));
    forall k | k in s.tokens ensures k < s.nextToken && s.tokens[k].family in s.families { assert TokenOk(s, k); }
    forall k | Unexpired(s, k) ensures Without(s.tokens, dead)[k] == s.tokens[k] { UnexpiredKeepsItsSuccessor(s, k); }
    forall f | f in s.families ensures f < s.nextFamily && (f in gone <==> !Peopled(s, f)) {
      assert FamilyOk(s, f);
      PeopledUnlessEmptied(s, f);
    }
  }

  lemma PeopledUnlessEmptied(s: State, f: nat)
    ensures Emptied(s, ExpiredTokens(s), f) <==> !Peopled(s, f)
  {
    if k :| k in s.tokens && s.tokens[k].family == f && k !in ExpiredTokens(s) {
      assert Unexpired(s, k);
    }
  }

  lemma UnexpiredKeepsItsSuccessor(s: State, k: nat)
    requires Inv(s) && Unexpired(s, k)
    ensures Without(s.tokens, ExpiredTokens(s))[k] == s.tokens[k]
  {
    assert TokenOk(s, k);
  }

  lemma LoginBegins(s: State, me: nat)
    requires s.txs == map[]
    ensures Do(s, BeginLogin(me)) == One(s, me, Purging(s.clock, ExpiredTokens(s), {}))
  {}

  lemma LoginSweeps(s: State, me: nat, cut: int, dead: set<nat>)
    ensures Do(One(s, me, Purging(cut, {}, dead)), Sweep(me)) == One(s, me, Sweeping(dead, EmptiedFamilies(s, dead), {}))
  {
    var now := One(s, me, Purging(cut, {}, dead));
    AllFree(s, me, Purging(cut, {}, dead), Sweeping(dead, EmptiedFamilies(s, dead), {}), FamilyRow(0));
    assert forall f :: Emptied(now, dead, f) <==> Emptied(s, dead, f);
    assert DoSweep(now, me).txs[me].left == EmptiedFamilies(s, dead);
  }

  lemma LoginOpens(s: State, me: nat, dead: set<nat>, gone: set<nat>)
    ensures Do(One(s, me, Sweeping(dead, {}, gone)), Open(me)) == One(s, me, Opening(dead, gone, s.clock, s.clock))
  {
    AllFree(s, me, Sweeping(dead, {}, gone), Opening(dead, gone, s.clock, s.clock), FamilyRow(0));
  }

  /** The second half of a login: families first, then the new family and its token. */
  lemma SweepThenOpen(s: State, me: nat, cut: int, dead: set<nat>) returns (actions: seq<Action>)
    ensures Run(One(s, me, Purging(cut, {}, dead)), actions)
         == Do(One(s, me, Opening(dead, EmptiedFamilies(s, dead), s.clock, s.clock)), Commit(me))
  {
    var gone := EmptiedFamilies(s, dead);
    var sweep := SweepsAll(s, me, dead, gone, {});
    assert {} + gone == gone;
    LoginSweeps(s, me, cut, dead);
    LoginOpens(s, me, dead, gone);
    TwoSteps(One(s, me, Sweeping(dead, {}, gone)), Open(me), Commit(me));
    RunJoins(One(s, me, Sweeping(dead, gone, {})), sweep, [Open(me), Commit(me)]);
    OneStep(One(s, me, Purging(cut, {}, dead)), Sweep(me), sweep + [Open(me), Commit(me)]);
    actions := [Sweep(me)] + (sweep + [Open(me), Commit(me)]);
  }

  lemma SoloLogin(s: State, me: nat) returns (actions: seq<Action>)
    requires Inv(s) && s.txs == map[]
    ensures LoggedIn(s, Run(s, actions)) && Run(s, actions).txs == map[]
  {
    var dead := ExpiredTokens(s);
    var purge := PurgesAll(s, me, s.clock, dead, {});
    var rest := SweepThenOpen(s, me, s.clock, dead);
    assert {} + dead == dead;
    OpeningLogsIn(s, me);
    RunJoins(One(s, me, Purging(s.clock, dead, {})), purge, rest);
    LoginBegins(s, me);
    OneStep(s, BeginLogin(me), purge + rest);
    actions := [BeginLogin(me)] + (purge + rest);
  }

  lemma TwoSteps(s: State, a: Action, b: Action)
    ensures Run(s, [a, b]) == Do(Do(s, a), b)
  {
    assert [a, b] == [a] + [b] && [b] == [b] + [];
    OneStep(s, a, [b]);
    OneStep(Do(s, a), b, []);
  }

  // ---------- Refresh and logout ----------

  /** n is s after token k was presented: refused, taken for a replay, or rotated. */
  ghost predicate Refreshed(s: State, k: nat, n: State)
    requires k in s.tokens
  {
    var row := s.tokens[k];
    if !Live(s, row.family) || row.expiresAt <= s.clock then n == s
    else if row.usedAt.Some? && s.clock - row.usedAt.value > 60 then
      n == s.(families := s.families[row.family := s.families[row.family].(revokedAt := Some(s.clock))])
    else
      && n.families == s.families && n.nextToken == s.nextToken + 1
      && n.tokens.Keys == s.tokens.Keys + {s.nextToken}
      && n.tokens[s.nextToken] == Token(row.family, s.clock, s.clock + 7 * 86400, None, None, Rotation(k, s.clock))
      && n.tokens[k] == (if row.usedAt.Some? then row
                         else row.(usedAt := Some(s.clock), replacedBy := Some(s.nextToken)))
      && forall j :: j in s.tokens && j != k ==> n.tokens[j] == s.tokens[j]
  }

  lemma SoloRefresh(s: State, me: nat, k: nat)
    requires Inv(s) && s.txs == map[] && k in s.tokens
    ensures Refreshed(s, k, Run(s, [Present(me, k), LockFamily(me), LockRow(me), Decide(me), Commit(me)]))
    ensures Run(s, [Present(me, k), LockFamily(me), LockRow(me), Decide(me), Commit(me)]).txs == map[]
  {
    var f := s.tokens[k].family;
    var a := One(s, me, Presented(k, f, s.clock));
    assert Do(s, Present(me, k)) == a;
    assert TokenOk(s, k) && Idle(s) == s;
    FiveSteps(s, Present(me, k), LockFamily(me), LockRow(me), Decide(me), Commit(me));
    AllFree(s, me, Presented(k, f, s.clock), FamilyHeld(k, f, s.clock), FamilyRow(f));
    if Live(s, f) {
      AllFree(s, me, FamilyHeld(k, f, s.clock), RowHeld(k, f, s.clock), TokenRow(k));
      LockedRefresh(s, me, k);
    }
  }

  lemma LockedRefresh(s: State, me: nat, k: nat)
    requires Inv(s) && s.txs == map[] && k in s.tokens && Live(s, s.tokens[k].family)
    ensures
      var n := Do(Do(One(s, me, RowHeld(k, s.tokens[k].family, s.clock)), Decide(me)), Commit(me));
      Refreshed(s, k, n) && n.txs == map[]
  {
    var row := s.tokens[k];
    var t := RowHeld(k, row.family, s.clock);
    var revoke := Revoking(row.family, Some(k), s.clock);
    var mint := Minted(k, row.family, s.clock, s.clock, row.usedAt.None?);
    assert TokenOk(s, k) && Idle(s) == s;
    AllFree(s, me, t, revoke, TokenRow(k));
    AllFree(s, me, t, mint, TokenRow(k));
    AllFree(s, me, revoke, t, TokenRow(k));
    AllFree(s, me, mint, t, TokenRow(k));
  }

  lemma FiveSteps(s: State, a: Action, b: Action, c: Action, d: Action, e: Action)
    ensures Run(s, [a, b, c, d, e]) == Do(Do(Do(Do(Do(s, a), b), c), d), e)
  {
    assert [a, b, c, d, e] == [a, b] + [c, d, e] && [c, d, e] == [c] + [d, e];
    RunJoins(s, [a, b], [c, d, e]);
    TwoSteps(s, a, b);
    OneStep(Do(Do(s, a), b), c, [d, e]);
    TwoSteps(Do(Do(Do(s, a), b), c), d, e);
  }

  function LoggedOut(s: State, f: nat): State {
    if Live(s, f) then s.(families := s.families[f := s.families[f].(revokedAt := Some(s.clock))]) else s
  }

  lemma LeavingRevokes(s: State, me: nat, f: nat)
    requires s.txs == map[]
    ensures Do(Do(One(s, me, Leaving(f)), RevokeOnLogout(me)), Commit(me)) == LoggedOut(s, f)
  {
    assert Idle(s) == s;
    AllFree(s, me, Leaving(f), Revoking(f, None, s.clock), FamilyRow(f));
    AllFree(s, me, Revoking(f, None, s.clock), Leaving(f), FamilyRow(f));
  }

  /** A logout revokes a live family at once, and does nothing to one already revoked or purged. */
  lemma SoloLogout(s: State, me: nat, k: nat)
    requires s.txs == map[] && k in s.tokens
    ensures Run(s, [Logout(me, k), RevokeOnLogout(me), Commit(me)]) == LoggedOut(s, s.tokens[k].family)
  {
    var f := s.tokens[k].family;
    assert Do(s, Logout(me, k)) == One(s, me, Leaving(f));
    LeavingRevokes(s, me, f);
    assert [Logout(me, k), RevokeOnLogout(me), Commit(me)] == [Logout(me, k)] + [RevokeOnLogout(me), Commit(me)];
    OneStep(s, Logout(me, k), [RevokeOnLogout(me), Commit(me)]);
    TwoSteps(One(s, me, Leaving(f)), RevokeOnLogout(me), Commit(me));
  }
}
