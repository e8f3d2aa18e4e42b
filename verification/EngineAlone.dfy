/**
 The interleaved engine against the sequential one: a transaction that meets no other does
 exactly what its operation is specified to do, so every sequential run is an interleaving.
 */
module EngineAlone {
  import opened Base
  import opened LedgerRows
  import opened Engine
  import opened EngineLocks
  import opened ApCredit
  import L = LedgerRuns

  /** A state with one open transaction. */
  function One(db: Db, me: nat, t: Tx): State { State(db, map[me := t]) }

  function Idle(db: Db): State { State(db, map[]) }

  lemma OneStep(s: State, a: Action, rest: seq<Action>)
    ensures Run(s, [a] + rest) == Run(Do(s, a), rest)
  {
    assert ([a] + rest)[1..] == rest;
  }

  lemma {:induction false} RunJoins(s: State, first: seq<Action>, rest: seq<Action>)
    ensures Run(s, first + rest) == Run(Run(s, first), rest)
    decreases |first|
  {
    if first == [] {
      assert first + rest == rest;
    } else {
      assert (first + rest)[1..] == first[1..] + rest;
      RunJoins(Do(s, first[0]), first[1..], rest);
    }
  }

  /** Nobody stands in the way of the only transaction, and its commit leaves none. */
  lemma OnlyOneMoves(db: Db, me: nat, t: Tx, ids: seq<nat>, reason: string, now: int)
    ensures Do(One(db, me, t), Advance(me, ids, reason, now)) == Advanced(One(db, me, t), me, ids, reason, now)
    ensures t.Done? ==> Run(One(db, me, t), [Commit(me)]) == Idle(db)
  {
    assert !Blocked(One(db, me, t), me);
    if t.Done? {
      assert map[me := t] - {me} == map[];
      assert [Commit(me)] == [Commit(me)] + [];
      OneStep(One(db, me, t), Commit(me), []);
    }
  }

  /** The fill loop, lock by lock, is the sequential loop. */
  lemma {:induction false} FillAlone(db: Db, me: nat, s: nat, todo: seq<nat>, held: seq<nat>, now: int)
    returns (actions: seq<Action>)
    requires s < |db.sources| && Indexed(db.accounts, todo)
    ensures Run(One(db, me, Filling(s, todo, held)), actions) == Idle(AutoFrom(db, s, todo, now))
    decreases |todo|
  {
    var t := Filling(s, todo, held);
    var step := Advance(me, [], "", now);
    var rest := [Commit(me)];
    OnlyOneMoves(db, me, t, [], "", now);
    if todo == [] || Remaining(db.sources[s]) <= 0 {
      var done := Done(s, held, []);
      assert map[me := t][me := done] == map[me := done];
      OnlyOneMoves(db, me, done, [], "", now);
    } else {
      var next := Filling(s, todo[1..], held + [todo[0]]);
      assert map[me := t][me := next] == map[me := next];
      var d := if db.accounts[todo[0]].voided then db else TakeOne(db, s, todo[0], true, now);
      rest := FillAlone(d, me, s, todo[1..], held + [todo[0]], now);
    }
    OneStep(One(db, me, t), step, rest);
    actions := [step] + rest;
  }

  /** The list the query returns is one the engine may work through. */
  lemma QueryIsCandidates(db: Db, s: nat, party: nat)
    requires s < |db.sources| && db.sources[s].party == Some(party)
    ensures Candidates(db, s, party, OpenIds(db, s))
  {
    var ids := OpenIds(db, s);
    forall k | 0 <= k < |ids| ensures Eligible(db, s, ids[k]) { assert ids[k] in ids; }
  }

  lemma RegisterAlone(db: Db, me: nat, op: L.Op) returns (actions: seq<Action>)
    requires op.OpRegister?
    ensures Run(Idle(db), actions)
         == Idle(L.Settle(db, Engine.Register(db, op.kind, op.party, op.currency, op.amount, op.now)))
  {
    var src := Source(op.kind, op.party, op.currency, op.amount, 0, Live, op.now, 0, 0);
    var d := AddSource(db, src);
    var id := |db.sources|;
    var ids := if op.party.Some? then OpenIds(d, id) else [];
    var step := Register(me, op.kind, op.party, op.currency, op.amount, ids, op.now);
    var rest := [];
    if Engine.Register(db, op.kind, op.party, op.currency, op.amount, op.now).Err? {
    } else if op.party.None? {
      rest := [Commit(me)];
      OnlyOneMoves(d, me, Done(id, [], []), [], "", op.now);
    } else {
      QueryIsCandidates(d, id, op.party.value);
      rest := FillAlone(d, me, id, ids, [], op.now);
    }
    OneStep(Idle(db), step, rest);
    actions := [step] + rest;
  }

  lemma BeginAlone(db: Db, me: nat, src: nat, job: Job)
    requires src < |db.sources| && !job.ToUndo?
    ensures Do(Idle(db), Begin(me, src, job)) == One(db, me, Starting(src, job))
  {}

  /** The steps after the first, with the first put in front of them. */
  lemma Then(db: Db, me: nat, t: Tx, ids: seq<nat>, reason: string, now: int, rest: seq<Action>)
    ensures Run(One(db, me, t), [Advance(me, ids, reason, now)] + rest)
         == Run(Advanced(One(db, me, t), me, ids, reason, now), rest)
  {
    OnlyOneMoves(db, me, t, ids, reason, now);
    OneStep(One(db, me, t), Advance(me, ids, reason, now), rest);
  }

  lemma ClaimAlone(db: Db, me: nat, src: nat, customer: nat, now: int) returns (actions: seq<Action>)
    ensures Run(Idle(db), actions) == Idle(L.Settle(db, Claim(db, src, customer, now)))
  {
    var job := ToClaim(customer);
    if src >= |db.sources| {
      actions := [];
    } else {
      var t := Starting(src, job);
      var d := SetParty(db, src, customer);
      var ids := OpenIds(d, src);
      var rest := [];
      assert map[me := t] - {me} == map[];
      if Claim(db, src, customer, now).Ok? {
        QueryIsCandidates(d, src, customer);
        CandidatesBeforeClaim(db, src, customer, ids);
        assert map[me := t][me := Filling(src, ids, [])] == map[me := Filling(src, ids, [])];
        rest := FillAlone(d, me, src, ids, [], now);
      }
      BeginAlone(db, me, src, job);
      Then(db, me, t, ids, "", now, rest);
      OneStep(Idle(db), Begin(me, src, job), [Advance(me, ids, "", now)] + rest);
      actions := [Begin(me, src, job)] + ([Advance(me, ids, "", now)] + rest);
    }
  }

  lemma CandidatesBeforeClaim(db: Db, src: nat, customer: nat, ids: seq<nat>)
    requires src < |db.sources| && Candidates(SetParty(db, src, customer), src, customer, ids)
    ensures Candidates(db, src, customer, ids)
  {}

  lemma VoidAlone(db: Db, me: nat, kind: Kind, src: nat) returns (actions: seq<Action>)
    ensures Run(Idle(db), actions) == Idle(L.Settle(db, VoidSource(db, kind, src)))
  {
    var job := ToVoid(kind);
    if src >= |db.sources| {
      actions := [];
    } else {
      var t := Starting(src, job);
      var r := VoidSource(db, kind, src);
      assert map[me := t] - {me} == map[];
      assert map[me := t][me := Done(src, [], [])] == map[me := Done(src, [], [])];
      var rest := if r.Ok? then [Commit(me)] else [];
      if r.Ok? { OnlyOneMoves(r.value, me, Done(src, [], []), [], "", 0); }
      BeginAlone(db, me, src, job);
      Then(db, me, t, [], "", 0, rest);
      OneStep(Idle(db), Begin(me, src, job), [Advance(me, [], "", 0)] + rest);
      actions := [Begin(me, src, job)] + ([Advance(me, [], "", 0)] + rest);
    }
  }

  lemma MatchAlone(db: Db, me: nat, kind: Kind, src: nat, a: nat, now: int) returns (actions: seq<Action>)
    ensures Run(Idle(db), actions) == Idle(L.Settle(db, ManualAllocate(db, kind, src, a, now)))
  {
    var job := ToMatch(kind, a);
    if src >= |db.sources| {
      actions := [];
    } else {
      var t, u, done := Starting(src, job), Matching(src, kind, a), Done(src, [a], []);
      var r := ManualAllocate(db, kind, src, a, now);
      assert map[me := t][me := u] == map[me := u] && map[me := u][me := done] == map[me := done];
      assert map[me := u] - {me} == map[];
      var rest := if r.Ok? then [Commit(me)] else [];
      if r.Ok? { OnlyOneMoves(r.value, me, done, [], "", now); }
      var last := [Advance(me, [], "", now)] + rest;
      Then(db, me, u, [], "", now, rest);
      BeginAlone(db, me, src, job);
      Then(db, me, t, [], "", now, last);
      OneStep(Idle(db), Begin(me, src, job), [Advance(me, [], "", now)] + last);
      actions := [Begin(me, src, job)] + ([Advance(me, [], "", now)] + last);
    }
  }

  lemma UndoAlone(db: Db, me: nat, kind: Kind, i: nat, reason: string) returns (actions: seq<Action>)
    ensures Run(Idle(db), actions) == Idle(L.Settle(db, Reverse(db, kind, i, reason)))
  {
    if !ReversibleRow(db, kind, i) {
      actions := [];
    } else {
      var src, a := db.allocs[i].source, db.allocs[i].account;
      var t, u, v := Starting(src, ToUndo(kind, i)), Undoing(src, a, kind, i), UndoingRow(src, a, kind, i);
      var done := Done(src, [a], [i]);
      assert map[me := t][me := u] == map[me := u] && map[me := u][me := v] == map[me := v];
      assert map[me := v][me := done] == map[me := done];
      var step := [Advance(me, [], reason, 0)];
      OnlyOneMoves(Reverse(db, kind, i, reason).value, me, done, [], "", 0);
      Then(db, me, v, [], reason, 0, [Commit(me)]);
      Then(db, me, u, [], reason, 0, step + [Commit(me)]);
      Then(db, me, t, [], reason, 0, step + (step + [Commit(me)]));
      OneStep(Idle(db), BeginUndo(me, kind, i), step + (step + (step + [Commit(me)])));
      actions := [BeginUndo(me, kind, i)] + (step + (step + (step + [Commit(me)])));
    }
  }

  predicate OnEngine(op: L.Op) {
    op.OpRegister? || op.OpClaim? || op.OpVoid? || op.OpManual? || op.OpReverse?
  }

  /** Run alone, each operation of the engine does step by step what it is specified to do at once,
      a refusal included. */
  lemma AloneIsSequential(db: Db, me: nat, op: L.Op) returns (actions: seq<Action>)
    requires Wired(db) && OnEngine(op)
    ensures Run(Idle(db), actions) == Idle(L.Step(db, op))
  {
    match op
    case OpRegister(_, _, _, _, _) => actions := RegisterAlone(db, me, op);
    case OpClaim(s, customer, now) => actions := ClaimAlone(db, me, s, customer, now);
    case OpVoid(kind, s) => actions := VoidAlone(db, me, kind, s);
    case OpManual(kind, s, a, now) => actions := MatchAlone(db, me, kind, s, a, now);
    case OpReverse(kind, i, reason) => actions := UndoAlone(db, me, kind, i, reason);
  }

  /** Every sequential run of the engine is one of its interleavings. */
  lemma {:induction false} SequentialRunsAreInterleavings(db: Db, me: nat, ops: seq<L.Op>) returns (actions: seq<Action>)
    requires Inv(db) && forall k :: 0 <= k < |ops| ==> OnEngine(ops[k])
    ensures Run(Idle(db), actions) == Idle(L.Run(db, ops))
    decreases |ops|
  {
    InvIsWired(db);
    if ops == [] {
      actions := [];
    } else {
      L.StepKeepsInv(db, ops[0]);
      var first := AloneIsSequential(db, me, ops[0]);
      var rest := SequentialRunsAreInterleavings(L.Step(db, ops[0]), me, ops[1..]);
      RunJoins(Idle(db), first, rest);
      actions := first + rest;
    }
  }
}
