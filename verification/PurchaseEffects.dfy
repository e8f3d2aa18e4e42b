/**
 What a purchase order transaction achieves: the effect of its commit, whatever runs beside it,
 and that nothing but the quota can keep one that runs alone from committing.
 */
module PurchaseEffects {
  import opened CoveredQty

  /** The purchase order a job leaves behind. */
  function Left(job: Job): Po {
    Po(match job
       case Create(_) => Draft
       case Save(_, _, _) => Draft
       case Confirm(_, _) => Confirmed
       case Cancel(_, _) => Cancelled, job.lines)
  }

  /** What the job's purchase order counted for a line until now. */
  function CountedBefore(s: State, job: Job, l: nat): int {
    if job.Create? || job.po >= |s.pos| then 0 else Counted(s.pos[job.po], l)
  }

  /** n is s with the job done: its order as it should be, no other touched, and the column of every
      line, whether the job names it or not, moved by exactly what the order now counts less what it did. */
  ghost predicate TookEffect(s: State, job: Job, n: State) {
    && n.qty == s.qty
    && n.pos == (if job.Create? then s.pos + [Left(job)]
                 else if job.po < |s.pos| then s.pos[job.po := Left(job)] else s.pos)
    && |n.covered| == |s.covered|
    && forall l :: 0 <= l < |n.covered| ==>
         n.covered[l] == s.covered[l] + Counted(Left(job), l) - CountedBefore(s, job, l)
  }

  lemma CommitTakesEffect(s: State, me: nat)
    requires Inv(s) && me in s.txs && s.txs[me].Refreshed?
    ensures TookEffect(s, s.txs[me].job, Do(s, Commit(me)))
    ensures Do(s, Commit(me)).txs == s.txs - {me}
  {
    var job := s.txs[me].job;
    var n := Do(s, Commit(me));
    assert TxOk(s, s.txs[me]);
    CommitKeepsCache(s, me);
    forall l | 0 <= l < |n.covered|
      ensures n.covered[l] == s.covered[l] + Counted(Left(job), l) - CountedBefore(s, job, l)
    {
      CoveredApplied(s, job, l);
      if !job.Create? { CoveredWithout(s.pos, job.po, l); }
    }
  }

  /** Nothing is written before the commit: a transaction that is refused or given up leaves no trace. */
  lemma OnlyCommitsWrite(s: State, a: Action)
    requires !a.Commit?
    ensures
      var n := Do(s, a);
      && n.pos == s.pos
      && n.qty == s.qty + (if a.NewLine? then [a.ordered] else [])
      && n.covered == s.covered + (if a.NewLine? then [0] else [])
      && (a.Abort? ==> n.txs == s.txs - {a.tx})
  {
    assert s.qty + [] == s.qty && s.covered + [] == s.covered;
  }

  // ---------- Alone ----------

  lemma {:induction false} RunJoins(s: State, first: seq<Action>, rest: seq<Action>)
    ensures Run(s, first + rest) == Run(Run(s, first), rest)
    decreases |first|
  {
    if first == [] {
      assert first + rest == rest;
    } else {
      assert (first + rest)[1..] == first[1..] + rest;
      RunJoins(Do(s, first[0]), first[1..], rest);
    }
  }

  lemma OneStep(s: State, a: Action, rest: seq<Action>)
    ensures Run(s, [a] + rest) == Run(Do(s, a), rest)
  {
    assert ([a] + rest)[1..] == rest;
  }

  function Alone(s: State, me: nat, t: Tx): State { s.(txs := map[me := t]) }

  lemma LocksOne(s: State, me: nat, job: Job, held: set<nat>, l: nat)
    requires l in Affected(job)
    ensures Do(Alone(s, me, Locking(job, held, {})), LockLine(me, l)) == Alone(s, me, Locking(job, held + {l}, {}))
  {
    assert Do(Alone(s, me, Locking(job, held, {})), LockLine(me, l)).txs == map[me := Locking(job, held + {l}, {})];
  }

  lemma LocksEveryLine(s: State, me: nat, job: Job, held: set<nat>) returns (actions: seq<Action>)
    requires held <= Affected(job)
    ensures Run(Alone(s, me, Locking(job, held, {})), actions) == Alone(s, me, Locking(job, Affected(job), {}))
    decreases Affected(job) - held
  {
    if l :| l in Affected(job) && l !in held {
      assert Affected(job) - (held + {l}) < Affected(job) - held by { assert l in Affected(job) - held; }
      var rest := LocksEveryLine(s, me, job, held + {l});
      LocksOne(s, me, job, held, l);
      OneStep(Alone(s, me, Locking(job, held, {})), LockLine(me, l), rest);
      actions := [LockLine(me, l)] + rest;
    } else {
      assert held == Affected(job);
      actions := [];
    }
  }

  /** The quota lets the job through on every line it names. */
  ghost predicate AllFit(s: State, job: Job) {
    forall l :: l in job.lines ==> l < |s.qty| && Fits(s, job, l)
  }

  lemma ChecksOne(s: State, me: nat, job: Job, checked: set<nat>, l: nat)
    requires AllFit(s, job) && !job.Cancel? && l in job.lines
    ensures Do(Alone(s, me, Locking(job, Affected(job), checked)), CheckLine(me, l))
         == Alone(s, me, Locking(job, Affected(job), checked + {l}))
  {
    var now := Alone(s, me, Locking(job, Affected(job), checked));
    assert Fits(now, job, l);
    assert Do(now, CheckLine(me, l)).txs == map[me := Locking(job, Affected(job), checked + {l})];
  }

  lemma ChecksEveryLine(s: State, me: nat, job: Job, checked: set<nat>) returns (actions: seq<Action>)
    requires AllFit(s, job) && !job.Cancel? && checked <= job.lines.Keys
    ensures Run(Alone(s, me, Locking(job, Affected(job), checked)), actions)
         == Alone(s, me, Locking(job, Affected(job), job.lines.Keys))
    decreases job.lines.Keys - checked
  {
    if l :| l in job.lines.Keys && l !in checked {
      assert job.lines.Keys - (checked + {l}) < job.lines.Keys - checked by { assert l in job.lines.Keys - checked; }
      var rest := ChecksEveryLine(s, me, job, checked + {l});
      ChecksOne(s, me, job, checked, l);
      OneStep(Alone(s, me, Locking(job, Affected(job), checked)), CheckLine(me, l), rest);
      actions := [CheckLine(me, l)] + rest;
    } else {
      assert checked == job.lines.Keys;
      actions := [];
    }
  }

  /** What the services ask of a request, before its quota. */
  ghost predicate Asked(s: State, job: Job) {
    match job
    case Create(lines) => Payload(s, lines)
    case Save(po, before, lines) => po < |s.pos| && s.pos[po] == Po(Draft, before) && Payload(s, lines)
    case Confirm(po, lines) => po < |s.pos| && s.pos[po] == Po(Draft, lines) && lines != map[]
    case Cancel(po, lines) => po < |s.pos| && s.pos[po].status != Cancelled && s.pos[po].lines == lines
  }

  function Begin(me: nat, job: Job): Action {
    match job
    case Create(lines) => BeginCreate(me, lines)
    case Save(po, _, lines) => BeginSave(me, po, lines)
    case Confirm(po, _) => BeginConfirm(me, po)
    case Cancel(po, _) => BeginCancel(me, po, false)
  }

  /** The order a job was made for is as it says. */
  predicate Current(s: State, job: Job) {
    match job
    case Create(_) => true
    case Save(po, before, _) => po < |s.pos| ==> s.pos[po].lines == before
    case Confirm(po, lines) => po < |s.pos| ==> s.pos[po].lines == lines
    case Cancel(po, lines) => po < |s.pos| ==> s.pos[po].lines == lines
  }

  /** A transaction starts exactly for a valid request on an order that nobody else is at, and a cancellation
      only while no inbound order is active; it starts with nothing locked and nothing checked. */
  lemma StartsExactlyWhenAsked(s: State, me: nat, job: Job, activeInbound: bool)
    requires Current(s, job)
    ensures
      var begun := Do(s, if job.Cancel? then BeginCancel(me, job.po, activeInbound) else Begin(me, job));
      var alone := job.Create? || forall i :: i in s.txs ==> s.txs[i].job.Create? || s.txs[i].job.po != job.po;
      begun == if me !in s.txs && Asked(s, job) && alone && !(job.Cancel? && activeInbound)
               then s.(txs := s.txs[me := Locking(job, {}, {})]) else s
  {}

  lemma ReadyJobFinishes(s: State, me: nat, job: Job, checked: set<nat>)
    requires Inv(Alone(s, me, Locking(job, Affected(job), checked))) && (job.Cancel? || checked == job.lines.Keys)
    ensures
      var n := Do(Do(Alone(s, me, Locking(job, Affected(job), checked)), Refresh(me)), Commit(me));
      TookEffect(s, job, n) && n.txs == map[]
  {
    var ready := Alone(s, me, Locking(job, Affected(job), checked));
    assert TxOk(ready, ready.txs[me]);
    var refreshed := Do(ready, Refresh(me));
    assert refreshed == Alone(s, me, Refreshed(job, Recomputed(ready, job)));
    RefreshKeepsInv(ready, me);
    CommitTakesEffect(refreshed, me);
    assert refreshed.txs - {me} == map[];
  }

  /** Takes every lock, passes every check, refreshes and commits. */
  lemma LockedJobFinishes(s: State, me: nat, job: Job) returns (actions: seq<Action>)
    requires Inv(Alone(s, me, Locking(job, {}, {}))) && (job.Cancel? || AllFit(s, job))
    ensures TookEffect(s, job, Run(Alone(s, me, Locking(job, {}, {})), actions))
    ensures Run(Alone(s, me, Locking(job, {}, {})), actions).txs == map[]
  {
    var start := Alone(s, me, Locking(job, {}, {}));
    var before := LocksEveryLine(s, me, job, {});
    if !job.Cancel? {
      var checks := ChecksEveryLine(s, me, job, {});
      RunJoins(start, before, checks);
      before := before + checks;
    }
    EveryRunKeepsCacheExact(start, before);
    var ready := Run(start, before);
    ReadyJobFinishes(s, me, job, ready.txs[me].checked);
    actions := before + [Refresh(me), Commit(me)];
    RunJoins(start, before, [Refresh(me), Commit(me)]);
    TwoSteps(ready, Refresh(me), Commit(me));
  }

  lemma TwoSteps(s: State, a: Action, b: Action)
    ensures Run(s, [a, b]) == Do(Do(s, a), b)
  {
    assert [a, b] == [a] + [b] && [b] == [b] + [];
    OneStep(s, a, [b]);
    OneStep(Do(s, a), b, []);
  }

  lemma ConfirmationsFit(s: State, job: Job)
    requires Inv(s) && Asked(s, job) && job.Confirm?
    ensures AllFit(s, job)
  {
    assert PoOk(s.pos[job.po]);
    forall l | l in job.lines ensures l < |s.qty| && Fits(s, job, l) { CoveredWithout(s.pos, job.po, l); }
  }

  /** With no other transaction about, a request that fits goes through to its commit. */
  lemma SoloJobFinishes(s: State, me: nat, job: Job) returns (actions: seq<Action>)
    requires Inv(s) && s.txs == map[] && Asked(s, job) && (job.Cancel? || AllFit(s, job))
    ensures TookEffect(s, job, Run(s, actions)) && Run(s, actions).txs == map[]
  {
    var started := Do(s, Begin(me, job));
    assert started == Alone(s, me, Locking(job, {}, {}));
    DoKeepsInv(s, Begin(me, job));
    var rest := LockedJobFinishes(s, me, job);
    actions := [Begin(me, job)] + rest;
    OneStep(s, Begin(me, job), rest);
  }

  /** The quota is the only thing that can stand between a valid request and its effect: some run brings
      it about exactly when its lines fit, and a confirmation or a cancellation can always be brought about. */
  lemma TakesEffectExactlyWhenItFits(s: State, job: Job)
    requires Inv(s) && s.txs == map[] && Asked(s, job)
    ensures (exists actions :: TookEffect(s, job, Run(s, actions))) <==> job.Cancel? || AllFit(s, job)
    ensures job.Confirm? ==> AllFit(s, job)
  {
    if job.Confirm? { ConfirmationsFit(s, job); }
    if job.Cancel? || AllFit(s, job) {
      var actions := SoloJobFinishes(s, 0, job);
    } else if actions :| TookEffect(s, job, Run(s, actions)) {
      EveryRunKeepsCacheExact(s, actions);
      EffectNeedsRoom(s, job, Run(s, actions));
    }
  }

  lemma EffectNeedsRoom(s: State, job: Job, n: State)
    requires Inv(s) && Asked(s, job) && !job.Cancel? && TookEffect(s, job, n) && CacheExact(n)
    ensures AllFit(s, job)
  {
    if job.Confirm? { assert PoOk(s.pos[job.po]); }
    forall l | l in job.lines ensures l < |s.qty| && Fits(s, job, l) {
      if !job.Create? { CoveredWithout(s.pos, job.po, l); }
    }
  }
}
