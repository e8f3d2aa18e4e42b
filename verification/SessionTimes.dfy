/**
 The clock a refresh compares and the clock it issues by. The first is read on arrival, the second
 under the locks: the time in between, spent waiting, decides whether the child is issued within
 the window after its parent's first use.
 */
module SessionTimes {
  import opened Base
  import opened RefreshFamilies
  import opened SoloSessions
  import opened SessionWaits

  /** The seconds that pass while these steps are taken. */
  function Elapsed(actions: seq<Action>): nat
    decreases |actions|
  {
    if actions == [] then 0
    else (if actions[0].Tick? then actions[0].seconds else 0) + Elapsed(actions[1..])
  }

  /** `me` does nothing meanwhile but try for its locks; the others do anything. */
  predicate OnlyWaits(actions: seq<Action>, me: nat) {
    forall i :: 0 <= i < |actions| && !actions[i].Tick? && actions[i].tx == me
      ==> actions[i].LockFamily? || actions[i].LockRow?
  }

  predicate OnItsWay(s: State, me: nat, k: nat, f: nat, now: int) {
    me in s.txs ==> s.txs[me] == Presented(k, f, now) || s.txs[me] == FamilyHeld(k, f, now) || s.txs[me] == RowHeld(k, f, now)
  }

  lemma StepKeepsTheWay(s: State, a: Action, me: nat, k: nat, f: nat, now: int)
    requires OnItsWay(s, me, k, f, now) && OnlyWaits([a], me)
    ensures OnItsWay(Do(s, a), me, k, f, now)
    ensures Do(s, a).clock == s.clock + Elapsed([a])
  {
    assert [a][1..] == [] && [a][0] == a;
  }

  /** Whatever runs beside it, a waiting refresh keeps the token and the time it arrived with. */
  lemma {:induction false} WaitingKeepsTheWay(s: State, actions: seq<Action>, me: nat, k: nat, f: nat, now: int)
    requires Inv(s) && OnItsWay(s, me, k, f, now) && OnlyWaits(actions, me)
    ensures var d := Run(s, actions);
            Inv(d) && OnItsWay(d, me, k, f, now) && d.clock == s.clock + Elapsed(actions)
    decreases |actions|
  {
    if actions != [] {
      assert OnlyWaits([actions[0]], me);
      StepKeepsTheWay(s, actions[0], me, k, f, now);
      assert Elapsed([actions[0]]) == if actions[0].Tick? then actions[0].seconds else 0 by {
        assert [actions[0]][1..] == [];
      }
      DoKeepsInv(s, actions[0]);
      WaitingKeepsTheWay(Do(s, actions[0]), actions[1..], me, k, f, now);
    }
  }

  /** When the window opened: at the first use, which is this one if there was none. */
  function FirstUse(row: Token, now: int): int {
    if row.usedAt.Some? then row.usedAt.value else now
  }

  /**
   A refresh that arrives with token k, waits while others run, and gets its locks. Its child is minted
   exactly when it arrived unexpired and within the window, however long it waited; and the child is
   issued within the window exactly when it waited no longer than the window was still open on arrival.
   */
  lemma IssuedWithinGraceExactlyWhen(s: State, me: nat, k: nat, actions: seq<Action>)
    requires Inv(s) && me !in s.txs && k in s.tokens && OnlyWaits(actions, me)
    requires var d := Run(Do(s, Present(me, k)), actions); me in d.txs && d.txs[me].RowHeld?
    ensures k in Run(Do(s, Present(me, k)), actions).tokens
    ensures
      var d := Run(Do(s, Present(me, k)), actions);
      var n := Do(Do(d, Decide(me)), Commit(me));
      var open := FirstUse(d.tokens[k], s.clock) + GRACE - s.clock;
      && (n.nextToken == d.nextToken + 1 <==> s.clock < d.tokens[k].expiresAt && open >= 0)
      && (n.nextToken == d.nextToken + 1 ==>
            && k in n.tokens && d.nextToken in n.tokens && n.tokens[d.nextToken].origin == Rotation(k, s.clock)
            && n.tokens[k].usedAt.Some?
            && (n.tokens[d.nextToken].issuedAt <= n.tokens[k].usedAt.value + GRACE <==> Elapsed(actions) <= open))
    ensures s.tokens[k].usedAt.Some? ==> Run(Do(s, Present(me, k)), actions).tokens[k] == s.tokens[k]
  {
    var f := s.tokens[k].family;
    DoKeepsInv(s, Present(me, k));
    assert Do(s, Present(me, k)).txs[me] == Presented(k, f, s.clock);
    WaitingKeepsTheWay(Do(s, Present(me, k)), actions, me, k, f, s.clock);
    LockedMint(Run(Do(s, Present(me, k)), actions), me);
    if s.tokens[k].usedAt.Some? { UsedAtIsWrittenOnce(Do(s, Present(me, k)), k, actions); }
  }

  /** So a refresh that gets its locks in the second it arrives is never late. */
  lemma NeverLateWithoutAWait(s: State, me: nat, k: nat, actions: seq<Action>)
    requires Inv(s) && me !in s.txs && k in s.tokens && OnlyWaits(actions, me) && Elapsed(actions) == 0
    requires var d := Run(Do(s, Present(me, k)), actions); me in d.txs && d.txs[me].RowHeld?
    ensures
      var d := Run(Do(s, Present(me, k)), actions);
      var n := Do(Do(d, Decide(me)), Commit(me));
      n.nextToken == d.nextToken + 1 ==>
        && k in n.tokens && n.tokens[k].usedAt.Some? && d.nextToken in n.tokens
        && n.tokens[d.nextToken].issuedAt <= n.tokens[k].usedAt.value + GRACE
  {
    IssuedWithinGraceExactlyWhen(s, me, k, actions);
  }

  lemma LockedMint(d: State, me: nat)
    requires Inv(d) && me in d.txs && d.txs[me].RowHeld?
    ensures d.txs[me].token in d.tokens
    ensures
      var t := d.txs[me];
      var n := Do(Do(d, Decide(me)), Commit(me));
      var first := FirstUse(d.tokens[t.token], t.now);
      && (n.nextToken == d.nextToken + 1 <==> t.now < d.tokens[t.token].expiresAt && t.now <= first + GRACE)
      && (n.nextToken == d.nextToken + 1 ==>
            && t.token in n.tokens && d.nextToken in n.tokens && n.tokens[t.token].usedAt == Some(first)
            && n.tokens[d.nextToken].origin == Rotation(t.token, t.now) && n.tokens[d.nextToken].issuedAt == d.clock)
  {
    assert TxOk(d, d.txs[me]);
    assert TokenOk(d, d.txs[me].token);
  }

  // ----- and every later moment happens -----

  const SIGN_IN := [ChangePassword(0), Commit(0)]
  const FIRST_TAB := [Present(1, 0), LockFamily(1), LockRow(1), Decide(1)]
  const SECOND_TAB := [LockFamily(2), LockRow(2), Decide(2), Commit(2)]

  function Minting(clock: int, second: map<nat, Tx>): State {
    OneFamily(clock, second[1 := Minted(0, 0, 0, 0, true)])
  }

  lemma FourSteps(s: State, a: Action, b: Action, c: Action, d: Action)
    ensures Run(s, [a, b, c, d]) == Do(Do(Do(Do(s, a), b), c), d)
  {
    assert [a, b, c, d] == [a] + [b, c, d];
    OneStep(s, a, [b, c, d]);
    ThreeSteps(Do(s, a), b, c, d);
  }

  lemma FirstTabMints()
    ensures Run(OneFamily(0, map[]), FIRST_TAB) == Minting(0, map[])
  {
    var s := OneFamily(0, map[]);
    FourSteps(s, Present(1, 0), LockFamily(1), LockRow(1), Decide(1));
    var a := Do(s, Present(1, 0));
    assert a.txs == map[1 := Presented(0, 0, 0)];
    assert Do(a, LockFamily(1)).txs == map[1 := FamilyHeld(0, 0, 0)];
    assert Do(Do(a, LockFamily(1)), LockRow(1)).txs == map[1 := RowHeld(0, 0, 0)];
    assert Do(Do(Do(a, LockFamily(1)), LockRow(1)), Decide(1)).txs == map[1 := Minted(0, 0, 0, 0, true)];
  }

  /** The second tab arrives p seconds later, asks for the family, and waits w seconds for the first. */
  function Late(p: nat, w: nat): seq<Action> {
    SIGN_IN + (FIRST_TAB + [Tick(p), Present(2, 0), LockFamily(2), Tick(w)])
  }

  lemma SecondTabWaits(p: nat, w: nat)
    ensures Run(Minting(0, map[]), [Tick(p), Present(2, 0), LockFamily(2), Tick(w)])
         == Minting(p + w, map[2 := Presented(0, 0, p)])
  {
    FourSteps(Minting(0, map[]), Tick(p), Present(2, 0), LockFamily(2), Tick(w));
    var a := Do(Minting(p, map[]), Present(2, 0));
    assert a.txs == Minting(p, map[2 := Presented(0, 0, p)]).txs;
    assert Holds(a.txs[1], FamilyRow(0));
    assert Do(a, LockFamily(2)) == a;
  }

  lemma UpToTheWait(p: nat, w: nat)
    ensures Run(EMPTY, Late(p, w)) == Minting(p + w, map[2 := Presented(0, 0, p)])
  {
    SignIn();
    FirstTabMints();
    SecondTabWaits(p, w);
    RunJoins(OneFamily(0, map[]), FIRST_TAB, [Tick(p), Present(2, 0), LockFamily(2), Tick(w)]);
    RunJoins(EMPTY, SIGN_IN, FIRST_TAB + [Tick(p), Present(2, 0), LockFamily(2), Tick(w)]);
  }

  function Rotated(clock: int, txs: map<nat, Tx>): State {
    State(clock, map[0 := Family(0, None)],
      map[0 := FIRST.(usedAt := Some(0), replacedBy := Some(1)),
          1 := Token(0, 0, LIFETIME, None, None, Rotation(0, 0))],
      1, 2, txs)
  }

  lemma FirstTabCommits(clock: int, p: nat)
    ensures Do(Minting(clock, map[2 := Presented(0, 0, p)]), Commit(1)) == Rotated(clock, map[2 := Presented(0, 0, p)])
  {
    var n := Do(Minting(clock, map[2 := Presented(0, 0, p)]), Commit(1));
    assert n.tokens == Rotated(clock, map[]).tokens;
    assert n.txs == map[2 := Presented(0, 0, p)];
  }

  /** n is where the second tab has its child, issued at `clock`, long or not after the first use at 0. */
  ghost predicate ChildIssued(n: State, p: nat, clock: nat) {
    && n.tokens.Keys == {0, 1, 2} && n.tokens[0].usedAt == Some(0)
    && n.tokens[2].origin == Rotation(0, p) && n.tokens[2].issuedAt == clock
  }

  lemma SecondTabMints(clock: nat, p: nat)
    requires p <= GRACE
    ensures ChildIssued(Run(Rotated(clock, map[2 := Presented(0, 0, p)]), SECOND_TAB), p, clock)
  {
    var s := Rotated(clock, map[2 := Presented(0, 0, p)]);
    FourSteps(s, LockFamily(2), LockRow(2), Decide(2), Commit(2));
    assert Do(s, LockFamily(2)) == Rotated(clock, map[2 := FamilyHeld(0, 0, p)]);
    assert Do(Rotated(clock, map[2 := FamilyHeld(0, 0, p)]), LockRow(2)) == Rotated(clock, map[2 := RowHeld(0, 0, p)]);
    assert Do(Rotated(clock, map[2 := RowHeld(0, 0, p)]), Decide(2))
        == Rotated(clock, map[2 := Minted(0, 0, p, clock, false)]);
  }

  lemma AfterTheWait(clock: nat, p: nat)
    requires p <= GRACE
    ensures ChildIssued(Run(Minting(clock, map[2 := Presented(0, 0, p)]), [Commit(1)] + SECOND_TAB), p, clock)
  {
    OneStep(Minting(clock, map[2 := Presented(0, 0, p)]), Commit(1), SECOND_TAB);
    FirstTabCommits(clock, p);
    SecondTabMints(clock, p);
  }

  /** From the first second of those w to the last, the second tab waits for the first. */
  lemma TheWaitIsForTheFamily(p: nat, w: nat)
    ensures Waits(Run(EMPTY, Late(p, w)), 2, 1)
  {
    UpToTheWait(p, w);
    var s := Minting(p + w, map[2 := Presented(0, 0, p)]);
    assert Wants(s.txs[2], FamilyRow(0)) && Holds(s.txs[1], FamilyRow(0));
  }

  lemma LateThen(p: nat, w: nat, rest: seq<Action>)
    ensures Run(EMPTY, Late(p, w) + rest) == Run(Minting(p + w, map[2 := Presented(0, 0, p)]), rest)
  {
    UpToTheWait(p, w);
    RunJoins(EMPTY, Late(p, w), rest);
  }

  /**
   Two tabs present one token, the second p seconds after the first and within the window. For every w
   there is a run on which it waits w seconds for the row the first tab holds (TheWaitIsForTheFamily), and
   its child is then issued p + w seconds after the first use: as late as one likes.
   */
  lemma ChildCanBeIssuedAfterTheGrace(p: nat, w: nat)
    requires p <= GRACE
    ensures ChildIssued(Run(EMPTY, Late(p, w) + ([Commit(1)] + SECOND_TAB)), p, p + w)
  {
    LateThen(p, w, [Commit(1)] + SECOND_TAB);
    AfterTheWait(p + w, p);
  }

  // ----- on a first use too -----

  /** The second tab is kept waiting by a first one that then gives up. */
  function LateFirstUse(w: nat): seq<Action> {
    SIGN_IN + ([Present(1, 0), LockFamily(1), Present(2, 0)] + [LockFamily(2), Tick(w), Abort(1)])
  }

  function Held(clock: int): State {
    OneFamily(clock, map[1 := FamilyHeld(0, 0, 0), 2 := Presented(0, 0, 0)])
  }

  lemma BothArrive()
    ensures Run(OneFamily(0, map[]), [Present(1, 0), LockFamily(1), Present(2, 0)]) == Held(0)
  {
    var s := OneFamily(0, map[]);
    ThreeSteps(s, Present(1, 0), LockFamily(1), Present(2, 0));
    assert Do(s, Present(1, 0)).txs == map[1 := Presented(0, 0, 0)];
    assert Do(Do(s, Present(1, 0)), LockFamily(1)).txs == map[1 := FamilyHeld(0, 0, 0)];
  }

  lemma FirstGivesUp(w: nat)
    ensures Waits(Held(0), 2, 1)
    ensures Run(Held(0), [LockFamily(2), Tick(w), Abort(1)]) == OneFamily(w, map[2 := Presented(0, 0, 0)])
  {
    assert Wants(Held(0).txs[2], FamilyRow(0)) && Holds(Held(0).txs[1], FamilyRow(0));
    ThreeSteps(Held(0), LockFamily(2), Tick(w), Abort(1));
    assert Do(Held(0), LockFamily(2)) == Held(0);
    assert Do(Held(w), Abort(1)).txs == map[2 := Presented(0, 0, 0)];
  }

  lemma OnlyTabMints(w: nat)
    ensures
      var n := Run(OneFamily(w, map[2 := Presented(0, 0, 0)]), SECOND_TAB);
      && n.tokens.Keys == {0, 1} && n.tokens[0].usedAt == Some(0) && n.tokens[0].replacedBy == Some(1)
      && n.tokens[1].origin == Rotation(0, 0) && n.tokens[1].issuedAt == w
  {
    var s := OneFamily(w, map[2 := Presented(0, 0, 0)]);
    FourSteps(s, LockFamily(2), LockRow(2), Decide(2), Commit(2));
    assert Do(s, LockFamily(2)) == OneFamily(w, map[2 := FamilyHeld(0, 0, 0)]);
    assert Do(OneFamily(w, map[2 := FamilyHeld(0, 0, 0)]), LockRow(2)) == OneFamily(w, map[2 := RowHeld(0, 0, 0)]);
    assert Do(OneFamily(w, map[2 := RowHeld(0, 0, 0)]), Decide(2)) == OneFamily(w, map[2 := Minted(0, 0, 0, w, true)]);
  }

  /** For every w there is a run on which a token's first use is at 0, and the child of that use, kept waiting
      for the family, is issued at w. */
  lemma FirstChildCanBeIssuedLate(w: nat)
    ensures
      var n := Run(EMPTY, LateFirstUse(w) + SECOND_TAB);
      && n.tokens.Keys == {0, 1} && n.tokens[0].usedAt == Some(0) && n.tokens[0].replacedBy == Some(1)
      && n.tokens[1].origin == Rotation(0, 0) && n.tokens[1].issuedAt == w
  {
    SignIn();
    BothArrive();
    FirstGivesUp(w);
    RunJoins(OneFamily(0, map[]), [Present(1, 0), LockFamily(1), Present(2, 0)], [LockFamily(2), Tick(w), Abort(1)]);
    RunJoins(EMPTY, SIGN_IN, [Present(1, 0), LockFamily(1), Present(2, 0)] + [LockFamily(2), Tick(w), Abort(1)]);
    RunJoins(EMPTY, LateFirstUse(w), SECOND_TAB);
    OnlyTabMints(w);
  }
}
