/**
 The materialised column covered_qty of a sales order line, kept by purchase orders that are
 created, saved, confirmed and cancelled at the same time.

 A transaction locks the purchase order it edits, then the sales order lines it may affect;
 it checks the quota line by line, recomputes the column of its lines from what is committed
 plus its own change, and commits. Locks are held until then. Quantities are thousandths.
 */
module CoveredQty {
  import opened Base

  datatype PoStatus = Draft | Confirmed | Cancelled

  /** One purchase order: at most one line for each sales order line. */
  datatype Po = Po(status: PoStatus, lines: map<nat, int>)

  datatype Job =
    | Create(lines: map<nat, int>)
    | Save(po: nat, before: map<nat, int>, lines: map<nat, int>)
    | Confirm(po: nat, lines: map<nat, int>)
    | Cancel(po: nat, lines: map<nat, int>)

  datatype Tx =
    | Locking(job: Job, held: set<nat>, checked: set<nat>)
    | Refreshed(job: Job, values: map<nat, int>)

  datatype State = State(qty: seq<int>, covered: seq<int>, pos: seq<Po>, txs: map<nat, Tx>)

  const EMPTY := State([], [], [], map[])

  datatype Action =
    | NewLine(ordered: nat)
    | BeginCreate(tx: nat, lines: map<nat, int>)
    | BeginSave(tx: nat, po: nat, lines: map<nat, int>)
    | BeginConfirm(tx: nat, po: nat)
    | BeginCancel(tx: nat, po: nat, activeInbound: bool)
    | LockLine(tx: nat, line: nat)
    | CheckLine(tx: nat, line: nat)
    | Refresh(tx: nat)
    | Commit(tx: nat)
    | Abort(tx: nat)

  function Qty(lines: map<nat, int>, l: nat): int {
    if l in lines then lines[l] else 0
  }

  function Counted(p: Po, l: nat): int {
    if p.status == Cancelled then 0 else Qty(p.lines, l)
  }

  /** The sum over non-cancelled purchase orders, drafts included, leaving one out if asked. */
  function Covered(pos: seq<Po>, l: nat, skip: Option<nat>): int {
    if pos == [] then 0
    else
      var n := |pos| - 1;
      Covered(pos[..n], l, skip) + if skip == Some(n) then 0 else Counted(pos[n], l)
  }

  function Affected(job: Job): set<nat> {
    if job.Save? then job.before.Keys + job.lines.Keys else job.lines.Keys
  }

  function Own(job: Job): Option<nat> {
    if job.Create? then None else Some(job.po)
  }

  /** What the job leaves its own order contributing to a line. */
  function Contribution(job: Job, l: nat): int {
    if job.Cancel? then 0 else Qty(job.lines, l)
  }

  function Apply(pos: seq<Po>, job: Job): seq<Po>
    requires Own(job).Some? ==> Own(job).value < |pos|
  {
    match job
    case Create(lines) => pos + [Po(Draft, lines)]
    case Save(po, _, lines) => pos[po := pos[po].(lines := lines)]
    case Confirm(po, _) => pos[po := pos[po].(status := Confirmed)]
    case Cancel(po, _) => pos[po := pos[po].(status := Cancelled)]
  }

  predicate Payload(s: State, lines: map<nat, int>) {
    lines != map[] && forall l :: l in lines ==> l < |s.qty| && lines[l] > 0
  }

  predicate PoFree(s: State, po: nat) {
    forall i :: i in s.txs ==> Own(s.txs[i].job) != Some(po)
  }

  predicate LineHeld(t: Tx, l: nat) {
    match t
    case Locking(_, held, _) => l in held
    case Refreshed(job, _) => l in Affected(job)
  }

  predicate LineFree(s: State, me: nat, l: nat) {
    forall i :: i in s.txs && i != me ==> !LineHeld(s.txs[i], l)
  }

  function Start(s: State, me: nat, job: Job): State {
    s.(txs := s.txs[me := Locking(job, {}, {})])
  }

  function Drop(s: State, me: nat): State { s.(txs := s.txs - {me}) }

  predicate Fits(s: State, job: Job, l: nat)
    requires l < |s.qty|
  {
    Covered(s.pos, l, Own(job)) + Qty(job.lines, l) <= s.qty[l]
  }

  function Written(covered: seq<int>, values: map<nat, int>): (r: seq<int>)
    ensures |r| == |covered|
    ensures forall l :: 0 <= l < |r| ==> r[l] == if l in values then values[l] else covered[l]
  {
    seq(|covered|, l requires 0 <= l < |covered| => if l in values then values[l] else covered[l])
  }

  /** One step; a step that must wait, or is refused at the start, changes nothing. */
  function Do(s: State, a: Action): State {
    match a
    case NewLine(ordered) => s.(qty := s.qty + [ordered], covered := s.covered + [0])
    case BeginCreate(me, lines) =>
      if me in s.txs || !Payload(s, lines) then s else Start(s, me, Create(lines))
    case BeginSave(me, po, lines) =>
      if me in s.txs || po >= |s.pos| || !PoFree(s, po) || s.pos[po].status != Draft || !Payload(s, lines) then s
      else Start(s, me, Save(po, s.pos[po].lines, lines))
    case BeginConfirm(me, po) =>
      if me in s.txs || po >= |s.pos| || !PoFree(s, po) || s.pos[po].status != Draft
         || s.pos[po].lines == map[] then s
      else Start(s, me, Confirm(po, s.pos[po].lines))
    case BeginCancel(me, po, activeInbound) =>
      if me in s.txs || po >= |s.pos| || !PoFree(s, po) || s.pos[po].status == Cancelled || activeInbound then s
      else Start(s, me, Cancel(po, s.pos[po].lines))
    case LockLine(me, l) =>
      if me !in s.txs || !s.txs[me].Locking? || l !in Affected(s.txs[me].job) || !LineFree(s, me, l) then s
      else s.(txs := s.txs[me := s.txs[me].(held := s.txs[me].held + {l})])
    case CheckLine(me, l) =>
      if me !in s.txs || !s.txs[me].Locking? || l !in s.txs[me].held || l !in s.txs[me].job.lines
         || s.txs[me].job.Cancel? || l >= |s.qty| then s
      else if !Fits(s, s.txs[me].job, l) then Drop(s, me)
      else s.(txs := s.txs[me := s.txs[me].(checked := s.txs[me].checked + {l})])
    case Refresh(me) =>
      if me !in s.txs || !s.txs[me].Locking? || !Ready(s.txs[me]) || !InRange(s, s.txs[me].job) then s
      else s.(txs := s.txs[me := Refreshed(s.txs[me].job, Recomputed(s, s.txs[me].job))])
    case Commit(me) =>
      if me !in s.txs || !s.txs[me].Refreshed? || !InRange(s, s.txs[me].job) then s
      else Drop(s.(pos := Apply(s.pos, s.txs[me].job), covered := Written(s.covered, s.txs[me].values)), me)
    case Abort(me) => Drop(s, me)
  }

  /** All affected lines are locked, and all payload lines have passed the quota check. */
  predicate Ready(t: Tx)
    requires t.Locking?
  {
    Affected(t.job) <= t.held && (t.job.Cancel? || t.job.lines.Keys <= t.checked)
  }

  predicate InRange(s: State, job: Job) {
    Own(job).Some? ==> Own(job).value < |s.pos|
  }

  /** Reads the order as this transaction has already rewritten it. Confirm rewrites no column. */
  function Recomputed(s: State, job: Job): map<nat, int>
    requires InRange(s, job)
  {
    if job.Confirm? then map[]
    else map l | l in Affected(job) :: Covered(Apply(s.pos, job), l, None)
  }

  function Run(s: State, actions: seq<Action>): State
    decreases |actions|
  {
    if actions == [] then s else Run(Do(s, actions[0]), actions[1..])
  }

  // ---------- Sums ----------

  lemma {:induction false} CoveredReplace(pos: seq<Po>, i: nat, p: Po, l: nat, skip: Option<nat>)
    requires i < |pos|
    ensures Covered(pos[i := p], l, skip) == Covered(pos, l, skip)
              + if skip == Some(i) then 0 else Counted(p, l) - Counted(pos[i], l)
  {
    var n := |pos| - 1;
    if i == n {
      assert pos[i := p][..n] == pos[..n];
    } else {
      CoveredReplace(pos[..n], i, p, l, skip);
      assert pos[i := p][..n] == pos[..n][i := p];
    }
  }

  lemma {:induction false} CoveredWithout(pos: seq<Po>, i: nat, l: nat)
    requires i < |pos|
    ensures Covered(pos, l, None) == Covered(pos, l, Some(i)) + Counted(pos[i], l)
  {
    var n := |pos| - 1;
    if i == n {
      SkipBeyond(pos[..n], i, l);
    } else {
      CoveredWithout(pos[..n], i, l);
      assert pos[..n][i] == pos[i];
    }
  }

  lemma {:induction false} SkipBeyond(pos: seq<Po>, i: nat, l: nat)
    requires i >= |pos|
    ensures Covered(pos, l, Some(i)) == Covered(pos, l, None)
  {
    if pos != [] { SkipBeyond(pos[..|pos| - 1], i, l); }
  }

  lemma {:induction false} CoveredNonNegative(pos: seq<Po>, l: nat, skip: Option<nat>)
    requires forall i :: 0 <= i < |pos| ==> PoOk(pos[i])
    ensures Covered(pos, l, skip) >= 0
  {
    if pos != [] {
      assert PoOk(pos[|pos| - 1]);
      CoveredNonNegative(pos[..|pos| - 1], l, skip);
    }
  }

  predicate PoOk(p: Po) {
    forall l :: l in p.lines ==> p.lines[l] > 0
  }

  // ---------- The invariant ----------

  /** The column equals the recomputation, and neither passes the ordered quantity. */
  ghost predicate CacheExact(s: State) {
    && |s.covered| == |s.qty|
    && forall l :: 0 <= l < |s.qty| ==> s.covered[l] == Covered(s.pos, l, None) <= s.qty[l]
  }

  ghost predicate JobOk(s: State, job: Job) {
    && (forall l :: l in Affected(job) ==> l < |s.qty|)
    && (forall l :: l in job.lines ==> job.lines[l] > 0)
    && match job
       case Create(_) => true
       case Save(po, before, _) => po < |s.pos| && s.pos[po] == Po(Draft, before)
       case Confirm(po, lines) => po < |s.pos| && s.pos[po] == Po(Draft, lines)
       case Cancel(po, lines) => po < |s.pos| && s.pos[po].status != Cancelled && s.pos[po].lines == lines
  }

  ghost predicate TxOk(s: State, t: Tx) {
    && JobOk(s, t.job)
    && match t
       case Locking(job, held, checked) =>
         held <= Affected(job) && checked <= held && forall l :: l in checked ==> Fits(s, job, l)
       case Refreshed(job, values) =>
         && (!job.Confirm? ==> values.Keys == Affected(job))
         && (job.Confirm? ==> values == map[])
         && forall l :: l in values ==>
              values[l] == Covered(s.pos, l, Own(job)) + Contribution(job, l) <= s.qty[l]
  }

  ghost predicate Exclusive(s: State) {
    && (forall i, j, l :: i in s.txs && j in s.txs && i != j && LineHeld(s.txs[i], l) ==> !LineHeld(s.txs[j], l))
    && (forall i, j :: i in s.txs && j in s.txs && i != j && Own(s.txs[i].job).Some?
          ==> Own(s.txs[i].job) != Own(s.txs[j].job))
  }

  ghost predicate Inv(s: State) {
    && CacheExact(s)
    && (forall i :: 0 <= i < |s.pos| ==> PoOk(s.pos[i]) && forall l :: l in s.pos[i].lines ==> l < |s.qty|)
    && (forall i :: i in s.txs ==> TxOk(s, s.txs[i]))
    && Exclusive(s)
  }

  /** What the job's own order contributes is all that its commit changes. */
  lemma CoveredApplied(s: State, job: Job, l: nat)
    requires JobOk(s, job)
    ensures Covered(Apply(s.pos, job), l, None) == Covered(s.pos, l, Own(job)) + Contribution(job, l)
  {
    if job.Create? {
      assert Apply(s.pos, job)[..|s.pos|] == s.pos;
    } else {
      CoveredReplace(s.pos, job.po, Apply(s.pos, job)[job.po], l, None);
      CoveredWithout(s.pos, job.po, l);
    }
  }

  /** A commit leaves alone every line its transaction has not locked, whichever order is left out. */
  lemma UnaffectedLines(s: State, job: Job, l: nat, skip: Option<nat>)
    requires JobOk(s, job) && l !in Affected(job)
    requires skip.Some? ==> skip != Own(job) && skip.value < |s.pos|
    ensures Covered(Apply(s.pos, job), l, skip) == Covered(s.pos, l, skip)
  {
    if job.Create? {
      assert Apply(s.pos, job)[..|s.pos|] == s.pos;
    } else {
      CoveredReplace(s.pos, job.po, Apply(s.pos, job)[job.po], l, skip);
    }
  }

  /** Confirming a purchase order changes no sum at all. */
  lemma ConfirmMovesNothing(s: State, job: Job, l: nat, skip: Option<nat>)
    requires JobOk(s, job) && job.Confirm?
    ensures Covered(Apply(s.pos, job), l, skip) == Covered(s.pos, l, skip)
  {
    CoveredReplace(s.pos, job.po, Apply(s.pos, job)[job.po], l, skip);
  }

  lemma StartKeepsInv(s: State, me: nat, job: Job)
    requires Inv(s) && me !in s.txs && JobOk(s, job)
    requires Own(job).Some? ==> PoFree(s, Own(job).value)
    ensures Inv(Start(s, me, job))
  {
    var n := Start(s, me, job);
    forall i | i in n.txs ensures TxOk(n, n.txs[i]) {
      if i != me { assert TxOk(s, s.txs[i]); }
    }
  }

  lemma DropKeepsInv(s: State, me: nat)
    requires Inv(s)
    ensures Inv(Drop(s, me))
  {
    var n := Drop(s, me);
    forall i | i in n.txs ensures TxOk(n, n.txs[i]) { assert TxOk(s, s.txs[i]); }
  }

  lemma AdvanceStaysExclusive(s: State, me: nat, t: Tx)
    requires Exclusive(s) && me in s.txs && t.job == s.txs[me].job
    requires forall l :: LineHeld(t, l) ==> LineHeld(s.txs[me], l) || LineFree(s, me, l)
    ensures Exclusive(s.(txs := s.txs[me := t]))
  {
    var n := s.(txs := s.txs[me := t]);
    forall i, l | i in n.txs && i != me && LineHeld(n.txs[i], l) ensures !LineHeld(t, l) {
      assert LineHeld(s.txs[i], l) && i in s.txs;
    }
  }

  lemma AdvanceKeepsInv(s: State, me: nat, t: Tx)
    requires Inv(s) && me in s.txs && TxOk(s, t) && t.job == s.txs[me].job
    requires forall l :: LineHeld(t, l) ==> LineHeld(s.txs[me], l) || LineFree(s, me, l)
    ensures Inv(s.(txs := s.txs[me := t]))
  {
    var n := s.(txs := s.txs[me := t]);
    AdvanceStaysExclusive(s, me, t);
    forall i | i in n.txs ensures TxOk(n, n.txs[i]) {
      if i != me { assert TxOk(s, s.txs[i]); }
    }
  }

  lemma LockLineKeepsInv(s: State, me: nat, l: nat)
    requires Inv(s)
    ensures Inv(Do(s, LockLine(me, l)))
  {
    if Do(s, LockLine(me, l)) != s {
      assert TxOk(s, s.txs[me]);
      AdvanceKeepsInv(s, me, s.txs[me].(held := s.txs[me].held + {l}));
    }
  }

  lemma CheckLineKeepsInv(s: State, me: nat, l: nat)
    requires Inv(s)
    ensures Inv(Do(s, CheckLine(me, l)))
  {
    DropKeepsInv(s, me);
    if Do(s, CheckLine(me, l)) != s && Fits(s, s.txs[me].job, l) {
      assert TxOk(s, s.txs[me]);
      AdvanceKeepsInv(s, me, s.txs[me].(checked := s.txs[me].checked + {l}));
    }
  }

  lemma RecomputedFits(s: State, job: Job, checked: set<nat>, l: nat)
    requires Inv(s) && TxOk(s, Locking(job, Affected(job), checked)) && l in Affected(job) && !job.Confirm?
    requires job.Cancel? || job.lines.Keys <= checked
    ensures Covered(Apply(s.pos, job), l, None) == Covered(s.pos, l, Own(job)) + Contribution(job, l) <= s.qty[l]
  {
    CoveredApplied(s, job, l);
    if l in job.lines && !job.Cancel? {
      assert Fits(s, job, l);
    } else {
      FreedLineFits(s, job, l);
    }
  }

  lemma RefreshedIsOk(s: State, me: nat)
    requires Inv(s) && me in s.txs && Do(s, Refresh(me)) != s
    ensures TxOk(s, Refreshed(s.txs[me].job, Recomputed(s, s.txs[me].job)))
  {
    var t := s.txs[me];
    assert TxOk(s, t) && t.held == Affected(t.job);
    if !t.job.Confirm? {
      forall l | l in Affected(t.job)
        ensures Covered(Apply(s.pos, t.job), l, None) == Covered(s.pos, l, Own(t.job)) + Contribution(t.job, l) <= s.qty[l]
      {
        RecomputedFits(s, t.job, t.checked, l);
      }
    }
  }

  lemma RefreshKeepsInv(s: State, me: nat)
    requires Inv(s)
    ensures Inv(Do(s, Refresh(me)))
  {
    if Do(s, Refresh(me)) != s {
      RefreshedIsOk(s, me);
      AdvanceKeepsInv(s, me, Refreshed(s.txs[me].job, Recomputed(s, s.txs[me].job)));
    }
  }

  /** A line that the edit frees had room before, so it has room after. */
  lemma FreedLineFits(s: State, job: Job, l: nat)
    requires Inv(s) && JobOk(s, job) && l in Affected(job) && Contribution(job, l) == 0
    requires Own(job).Some?
    ensures Covered(s.pos, l, Own(job)) <= s.qty[l]
  {
    CoveredWithout(s.pos, job.po, l);
    assert PoOk(s.pos[job.po]);
  }

  lemma CommitKeepsOthers(s: State, me: nat, other: nat)
    requires Inv(s) && me in s.txs && s.txs[me].Refreshed? && other in s.txs && other != me
    ensures InRange(s, s.txs[me].job) && TxOk(Do(s, Commit(me)), s.txs[other])
  {
    var job, t := s.txs[me].job, s.txs[other];
    assert TxOk(s, s.txs[me]) && TxOk(s, t);
    var n := Do(s, Commit(me));
    assert Own(t.job).Some? ==> n.pos[Own(t.job).value] == s.pos[Own(t.job).value];
    forall l | LineHeld(t, l)
      ensures Covered(n.pos, l, Own(t.job)) == Covered(s.pos, l, Own(t.job))
    {
      assert !LineHeld(s.txs[me], l);
      UnaffectedLines(s, job, l, Own(t.job));
    }
    if t.Locking? {
      forall l | l in t.checked ensures Fits(n, t.job, l) { assert LineHeld(t, l) && Fits(s, t.job, l); }
    } else {
      forall l | l in t.values ensures Covered(n.pos, l, Own(t.job)) == Covered(s.pos, l, Own(t.job)) {
        assert LineHeld(t, l);
      }
    }
  }

  lemma CommitKeepsCache(s: State, me: nat)
    requires Inv(s) && me in s.txs && s.txs[me].Refreshed?
    ensures CacheExact(Do(s, Commit(me)))
  {
    var t := s.txs[me];
    assert TxOk(s, t);
    var n := Do(s, Commit(me));
    forall l: nat | l < |n.qty| ensures n.covered[l] == Covered(n.pos, l, None) <= n.qty[l] {
      if t.job.Confirm? {
        ConfirmMovesNothing(s, t.job, l, None);
      } else if l in Affected(t.job) {
        CoveredApplied(s, t.job, l);
      } else {
        UnaffectedLines(s, t.job, l, None);
      }
    }
  }

  lemma CommitKeepsInv(s: State, me: nat)
    requires Inv(s)
    ensures Inv(Do(s, Commit(me)))
  {
    if me in s.txs && s.txs[me].Refreshed? {
      var n := Do(s, Commit(me));
      assert TxOk(s, s.txs[me]);
      CommitKeepsCache(s, me);
      forall i | i in n.txs ensures TxOk(n, n.txs[i]) { CommitKeepsOthers(s, me, i); }
      forall i | 0 <= i < |n.pos| ensures PoOk(n.pos[i]) && forall l :: l in n.pos[i].lines ==> l < |n.qty| {
        if i < |s.pos| { assert PoOk(s.pos[i]); }
      }
    }
  }

  lemma {:induction false} NothingCovers(pos: seq<Po>, l: nat)
    requires forall i :: 0 <= i < |pos| ==> l !in pos[i].lines
    ensures Covered(pos, l, None) == 0
  {
    if pos != [] { NothingCovers(pos[..|pos| - 1], l); }
  }

  lemma NewLineKeepsInv(s: State, ordered: nat)
    requires Inv(s)
    ensures Inv(Do(s, NewLine(ordered)))
  {
    var n := Do(s, NewLine(ordered));
    NothingCovers(s.pos, |s.qty|);
    forall i | i in n.txs ensures TxOk(n, n.txs[i]) {
      assert TxOk(s, s.txs[i]);
      if s.txs[i].Locking? {
        forall l | l in s.txs[i].checked ensures Fits(n, s.txs[i].job, l) { assert Fits(s, s.txs[i].job, l); }
      }
    }
  }

  lemma DoKeepsInv(s: State, a: Action)
    requires Inv(s)
    ensures Inv(Do(s, a))
  {
    match a
    case NewLine(ordered) => NewLineKeepsInv(s, ordered);
    case BeginCreate(me, lines) => if Do(s, a) != s { StartKeepsInv(s, me, Create(lines)); }
    case BeginSave(me, po, lines) => if Do(s, a) != s { StartKeepsInv(s, me, Save(po, s.pos[po].lines, lines)); }
    case BeginConfirm(me, po) =>
      if Do(s, a) != s { assert PoOk(s.pos[po]); StartKeepsInv(s, me, Confirm(po, s.pos[po].lines)); }
    case BeginCancel(me, po, _) =>
      if Do(s, a) != s { assert PoOk(s.pos[po]); StartKeepsInv(s, me, Cancel(po, s.pos[po].lines)); }
    case LockLine(me, l) => LockLineKeepsInv(s, me, l);
    case CheckLine(me, l) => CheckLineKeepsInv(s, me, l);
    case Refresh(me) => RefreshKeepsInv(s, me);
    case Commit(me) => CommitKeepsInv(s, me);
    case Abort(me) => DropKeepsInv(s, me);
  }

  /** Under every interleaving, every commit leaves the column exact and within the quota. */
  lemma {:induction false} EveryRunKeepsCacheExact(s: State, actions: seq<Action>)
    requires Inv(s)
    ensures Inv(Run(s, actions)) && CacheExact(Run(s, actions))
    decreases |actions|
  {
    if actions != [] {
      DoKeepsInv(s, actions[0]);
      EveryRunKeepsCacheExact(Do(s, actions[0]), actions[1..]);
    }
  }

  /** The quota re-check of a confirmation never refuses: the draft already counts. */
  lemma ConfirmNeverRejects(s: State, me: nat, l: nat)
    requires Inv(s) && me in s.txs && s.txs[me].Locking? && s.txs[me].job.Confirm?
    requires l in s.txs[me].held
    ensures me in Do(s, CheckLine(me, l)).txs && l in Do(s, CheckLine(me, l)).txs[me].checked
  {
    var job := s.txs[me].job;
    assert TxOk(s, s.txs[me]);
    CoveredWithout(s.pos, job.po, l);
  }

  /** For a new order or an edit the check refuses exactly what the commit would push past the quota. */
  lemma QuotaRefusesExactly(s: State, me: nat, l: nat)
    requires Inv(s) && me in s.txs && s.txs[me].Locking? && !s.txs[me].job.Cancel?
    requires l in s.txs[me].held && l in s.txs[me].job.lines
    ensures InRange(s, s.txs[me].job) && l < |s.qty|
    ensures me in Do(s, CheckLine(me, l)).txs <==>
              Covered(Apply(s.pos, s.txs[me].job), l, None) <= s.qty[l]
  {
    assert TxOk(s, s.txs[me]);
    CoveredApplied(s, s.txs[me].job, l);
  }

  // ---------- The progress badge, derived three ways ----------

  datatype Progress = NotOrdered | PartiallyOrdered | FullyOrdered

  /** The one kernel: line count, lines covered in full, lines covered at all. */
  function ClassifyProgress(total: nat, fully: nat, any: nat): Progress {
    if total == 0 then NotOrdered
    else if fully == total then FullyOrdered
    else if any > 0 then PartiallyOrdered
    else NotOrdered
  }

  /** The SQL CASE over COUNT and COUNT FILTER, where an empty aggregate may be NULL. */
  function ProgressCase(total: Option<nat>, fully: Option<nat>, any: Option<nat>): Progress {
    if total == None || total == Some(0) then NotOrdered
    else if fully == total then FullyOrdered
    else if any.Some? && any.value > 0 then PartiallyOrdered
    else NotOrdered
  }

  type Test = (nat, int) -> bool

  function InFull(qty: seq<int>): Test {
    (l: nat, c: int) => l < |qty| && c >= qty[l]
  }

  function AtAll(): Test {
    (l: nat, c: int) => c > 0
  }

  function Count(lines: seq<nat>, amounts: map<nat, int>, test: Test): (n: nat)
    requires forall i :: 0 <= i < |lines| ==> lines[i] in amounts
    ensures n <= |lines|
  {
    if lines == [] then 0
    else (if test(lines[0], amounts[lines[0]]) then 1 else 0) + Count(lines[1..], amounts, test)
  }

  lemma {:induction false} CountMeans(lines: seq<nat>, amounts: map<nat, int>, test: Test)
    requires forall i :: 0 <= i < |lines| ==> lines[i] in amounts
    ensures Count(lines, amounts, test) == |lines| <==> forall i :: 0 <= i < |lines| ==> test(lines[i], amounts[lines[i]])
    ensures Count(lines, amounts, test) == 0 <==> forall i :: 0 <= i < |lines| ==> !test(lines[i], amounts[lines[i]])
  {
    if lines != [] {
      CountMeans(lines[1..], amounts, test);
      assert forall i :: 1 <= i < |lines| ==> lines[i] == lines[1..][i - 1];
    }
  }

  ghost predicate LinesOf(s: State, lines: seq<nat>) {
    forall i :: 0 <= i < |lines| ==> lines[i] < |s.qty|
  }

  function CoveredOf(s: State, lines: seq<nat>): map<nat, int> {
    map l | l in lines :: Covered(s.pos, l, None)
  }

  /** The detail view recomputes the coverage from the purchase orders. */
  function ProgressFrom(s: State, lines: seq<nat>): Progress
    requires LinesOf(s, lines)
  {
    ClassifyProgress(|lines|,
      Count(lines, CoveredOf(s, lines), InFull(s.qty)),
      Count(lines, CoveredOf(s, lines), AtAll()))
  }

  /** The list page counts over the stored column, row by row. */
  method ProgressForPage(s: State, lines: seq<nat>) returns (badge: Progress)
    requires Inv(s) && LinesOf(s, lines)
    ensures badge == ProgressFrom(s, lines)
  {
    var total, fully, any := 0, 0, 0;
    ghost var covered := CoveredOf(s, lines);
    while total < |lines|
      invariant 0 <= total <= |lines|
      invariant fully == Count(lines[..total], covered, InFull(s.qty))
      invariant any == Count(lines[..total], covered, AtAll())
    {
      var l := lines[total];
      CountNext(lines, covered, total, InFull(s.qty));
      CountNext(lines, covered, total, AtAll());
      if s.covered[l] >= s.qty[l] { fully := fully + 1; }
      if s.covered[l] > 0 { any := any + 1; }
      total := total + 1;
    }
    assert lines[..total] == lines;
    badge := ClassifyProgress(total, fully, any);
  }

  lemma {:induction false} CountNext(lines: seq<nat>, amounts: map<nat, int>, k: nat, test: Test)
    requires k < |lines| && forall i :: 0 <= i < |lines| ==> lines[i] in amounts
    ensures Count(lines[..k + 1], amounts, test)
              == Count(lines[..k], amounts, test) + if test(lines[k], amounts[lines[k]]) then 1 else 0
  {
    if k == 0 {
      assert lines[..1] == [lines[0]] && lines[..0] == [];
      assert [lines[0]][1..] == [];
    } else {
      CountNext(lines[1..], amounts, k - 1, test);
      assert lines[..k + 1][1..] == lines[1..][..k] && lines[..k][1..] == lines[1..][..k - 1];
    }
  }

  function Column(s: State, lines: seq<nat>): map<nat, int> {
    map l | l in lines :: if l < |s.covered| then s.covered[l] else 0
  }

  lemma ColumnIsRecomputed(s: State, lines: seq<nat>)
    requires Inv(s) && LinesOf(s, lines)
    ensures Column(s, lines) == CoveredOf(s, lines)
    ensures forall i :: 0 <= i < |lines| ==> 0 <= s.covered[lines[i]] <= s.qty[lines[i]]
  {
    forall l | l in lines ensures Column(s, lines)[l] == CoveredOf(s, lines)[l] {}
    forall i | 0 <= i < |lines| ensures 0 <= s.covered[lines[i]] <= s.qty[lines[i]] {
      CoveredNonNegative(s.pos, lines[i], None);
    }
  }

  /** In every reachable state the list filter, the list page and the detail view show one badge. */
  lemma BadgesAgree(s: State, lines: seq<nat>)
    requires Inv(s) && LinesOf(s, lines)
    ensures
      var fully := Count(lines, Column(s, lines), InFull(s.qty));
      var any := Count(lines, Column(s, lines), AtAll());
      ProgressFrom(s, lines) == ClassifyProgress(|lines|, fully, any)
        == ProgressCase(Some(|lines|), Some(fully), Some(any))
  {
    ColumnIsRecomputed(s, lines);
  }

  /** And the badge means: fully ordered when there are lines and each is covered to its quantity,
      not ordered when nothing is covered, partly ordered in between. */
  lemma BadgeMeans(s: State, lines: seq<nat>)
    requires Inv(s) && LinesOf(s, lines)
    requires forall i :: 0 <= i < |lines| ==> s.qty[lines[i]] > 0
    ensures (ProgressFrom(s, lines) == FullyOrdered) <==>
              (lines != [] && forall i :: 0 <= i < |lines| ==> s.covered[lines[i]] == s.qty[lines[i]])
    ensures (ProgressFrom(s, lines) == NotOrdered) <==>
              (forall i :: 0 <= i < |lines| ==> s.covered[lines[i]] == 0)
  {
    ColumnIsRecomputed(s, lines);
    BadgesAgree(s, lines);
    var column := Column(s, lines);
    CountMeans(lines, column, InFull(s.qty));
    CountMeans(lines, column, AtAll());
    assert forall i :: 0 <= i < |lines| ==> column[lines[i]] == s.covered[lines[i]];
    if lines != [] {
      assert lines[0] in lines;
    }
  }
}
