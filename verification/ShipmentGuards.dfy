/**
 The guards of the yard against its safety: an operation is accepted exactly when the change it
 asks for is legal on the row it names and leaves every rule standing, and then it is that change.
 */
module ShipmentGuards {
  import opened Base
  import opened Shipments

  predicate InState(y: Yard, s: nat, status: ShipStatus) {
    s < |y.ships| && y.ships[s].status == status
  }

  /** r accepts exactly when `legal` and the yard n is safe; what it returns then is n. */
  ghost predicate Exactly(r: Result<Yard, Error>, legal: bool, n: Yard) {
    (r.Ok? <==> legal && Inv(n)) && (r.Ok? ==> r.value == n)
  }

  // ---------- The shipment ----------

  lemma LoadIsExact(y: Yard, s: nat, now: int)
    requires Inv(y) && InState(y, s, Open)
    ensures Exactly(Apply(y, OpLoad(s, now)), true, SetShip(y, s, Ship(Loaded, Some(now), None)))
  {
    var n := SetShip(y, s, Ship(Loaded, Some(now), None));
    assert ShipOk(y.ships[s]);
    var drafts := Drafts(y.outs, s);
    assert drafts == [] || drafts[0] in drafts;
    if Load(y, s, now).Ok? { ShipStepKeepsInv(y, OpLoad(s, now)); }
    if Inv(n) {
      assert CargoOk(n.ships, n.outs, s);
      forall o | 0 <= o < |y.outs| && Inside(n.outs[o], s) ensures !Drafted(y.outs[o], s) {}
    }
  }

  lemma CancelShipIsExact(y: Yard, s: nat)
    requires Inv(y) && InState(y, s, Open)
    ensures Exactly(Apply(y, OpCancelShip(s)), true, SetShip(y, s, Ship(ShipCancelled, None, None)))
  {
    var n := SetShip(y, s, Ship(ShipCancelled, None, None));
    assert ShipOk(y.ships[s]);
    if CancelShip(y, s).Ok? { ShipStepKeepsInv(y, OpCancelShip(s)); }
    if Inv(n) { assert CargoOk(n.ships, n.outs, s); }
  }

  lemma UnloadIsExact(y: Yard, s: nat)
    requires Inv(y) && InState(y, s, Loaded)
    ensures Exactly(Apply(y, OpUnload(s)), true, SetShip(y, s, Ship(Open, None, None)))
  {
    var n := SetShip(y, s, Ship(Open, None, None));
    assert ShipOk(y.ships[s]);
    if Unload(y, s).Ok? { ShipStepKeepsInv(y, OpUnload(s)); }
    if Inv(n) { OnlySealedHaveCustoms(n, s); }
  }

  lemma UndepartIsExact(y: Yard, s: nat)
    requires Inv(y) && InState(y, s, Departed)
    ensures Exactly(Apply(y, OpUndepart(s)), true, SetShip(y, s, Ship(Loaded, y.ships[s].loadedAt, None)))
  {
    var n := SetShip(y, s, Ship(Loaded, y.ships[s].loadedAt, None));
    assert ShipOk(y.ships[s]);
    if Undepart(y, s).Ok? { ShipStepKeepsInv(y, OpUndepart(s)); }
    if Inv(n) { OnlyDepartedHaveEvents(n, s); }
  }

  /** A sealed shipment can always leave. */
  lemma DepartIsExact(y: Yard, s: nat, day: int)
    requires Inv(y) && InState(y, s, Loaded)
    ensures Exactly(Apply(y, OpDepart(s, day)), true, SetShip(y, s, Ship(Departed, y.ships[s].loadedAt, Some(day))))
    ensures Depart(y, s, day).Ok?
  {
    ShipStepKeepsInv(y, OpDepart(s, day));
  }

  /** Each correction and each closing step is open exactly when nothing would be left hanging. */
  lemma ShipGuardsAreExact(y: Yard, s: nat, now: int, day: int)
    requires Inv(y) && s < |y.ships|
    ensures
      var ship := y.ships[s];
      && Exactly(Apply(y, OpLoad(s, now)), ship.status == Open, SetShip(y, s, Ship(Loaded, Some(now), None)))
      && Exactly(Apply(y, OpCancelShip(s)), ship.status == Open, SetShip(y, s, Ship(ShipCancelled, None, None)))
      && Exactly(Apply(y, OpUnload(s)), ship.status == Loaded, SetShip(y, s, Ship(Open, None, None)))
      && Exactly(Apply(y, OpUndepart(s)), ship.status == Departed, SetShip(y, s, Ship(Loaded, ship.loadedAt, None)))
      && Exactly(Apply(y, OpDepart(s, day)), ship.status == Loaded, SetShip(y, s, Ship(Departed, ship.loadedAt, Some(day))))
    ensures Step(y, OpCreateShip) == y.(ships := y.ships + [Ship(Open, None, None)])
  {
    match y.ships[s].status
    case Open => LoadIsExact(y, s, now); CancelShipIsExact(y, s);
    case Loaded => UnloadIsExact(y, s); DepartIsExact(y, s, day);
    case Departed => UndepartIsExact(y, s);
    case ShipCancelled =>
  }

  // ---------- Outbound orders ----------

  lemma CreateOutIsExact(y: Yard, so: nat, s: nat, confirmed: bool)
    requires Inv(y)
    ensures Exactly(Apply(y, OpCreateOut(so, s, confirmed)), confirmed, y.(outs := y.outs + [Outbound(so, s, Draft)]))
  {
    var n := y.(outs := y.outs + [Outbound(so, s, Draft)]);
    if CreateOut(y, so, s, confirmed).Ok? { OutStepKeepsInv(y, OpCreateOut(so, s, confirmed)); }
    if Inv(n) {
      assert n.outs[|y.outs|].ship < |n.ships|;
      assert Inside(n.outs[|y.outs|], s) && CargoOk(n.ships, n.outs, s);
      forall o | 0 <= o < |y.outs| && Drafted(y.outs[o], s) ensures y.outs[o].so != so {
        assert n.outs[o] == y.outs[o];
      }
    }
  }

  /** With its sales order confirmed and the stock there, a draft can always be issued, and always be cancelled:
      the test that its shipment is still open never refuses. */
  lemma DraftsAreAlwaysDecidable(y: Yard, o: nat, confirmed: bool, stock: bool)
    requires Inv(y)
    ensures Apply(y, OpConfirmOut(o, confirmed, stock)).Ok? <==> o < |y.outs| && y.outs[o].status == Draft && confirmed && stock
    ensures Apply(y, OpCancelOut(o)).Ok? <==> o < |y.outs| && y.outs[o].status == Draft
    ensures Apply(y, OpConfirmOut(o, confirmed, stock)).Ok? ==>
              Apply(y, OpConfirmOut(o, confirmed, stock)).value
              == y.(outs := y.outs[o := Outbound(y.outs[o].so, y.outs[o].ship, Issued)])
    ensures Apply(y, OpCancelOut(o)).Ok? ==>
              Apply(y, OpCancelOut(o)).value == y.(outs := y.outs[o := Outbound(y.outs[o].so, y.outs[o].ship, OutCancelled)])
  {
    if o < |y.outs| && y.outs[o].status == Draft {
      assert Inside(y.outs[o], y.outs[o].ship) && CargoOk(y.ships, y.outs, y.outs[o].ship);
    }
  }

  // ---------- Declarations ----------

  lemma CreateDeclIsExact(y: Yard, s: nat, no: string, declared: int, released: Option<int>)
    requires Inv(y)
    ensures Exactly(Apply(y, OpCreateDecl(s, no, declared, released)), true,
                    y.(decls := y.decls + [Declaration(s, no, declared, released, false)]))
  {
    var n := y.(decls := y.decls + [Declaration(s, no, declared, released, false)]);
    if CreateDecl(y, s, no, declared, released).Ok? { CreateDeclKeepsInv(y, s, no, declared, released); }
    if Inv(n) {
      assert n.decls[|y.decls|].ship < |n.ships|;
      forall c | 0 <= c < |y.decls| && !y.decls[c].deleted ensures y.decls[c].ship != s && y.decls[c].no != no {
        assert n.decls[c] == y.decls[c];
      }
    }
  }

  lemma UpdateDeclIsExact(y: Yard, s: nat, c: nat, no: string, declared: int, released: Option<int>)
    requires Inv(y) && c < |y.decls|
    ensures Exactly(Apply(y, OpUpdateDecl(s, c, no, declared, released)), Declared(y.decls[c], s),
                    y.(decls := y.decls[c := Declaration(y.decls[c].ship, no, declared, released, y.decls[c].deleted)]))
  {
    var n := y.(decls := y.decls[c := Declaration(y.decls[c].ship, no, declared, released, y.decls[c].deleted)]);
    if UpdateDecl(y, s, c, no, declared, released).Ok? { UpdateDeclKeepsInv(y, s, c, no, declared, released); }
    if Inv(n) && Declared(y.decls[c], s) {
      forall d | 0 <= d < |y.decls| && !y.decls[d].deleted && d != c ensures y.decls[d].no != no {
        var low, high := if c < d then c else d, if c < d then d else c;
        assert n.decls[low].no != n.decls[high].no;
      }
      assert n.decls[c] == Declaration(s, no, declared, released, false);
    }
  }

  // ---------- Events ----------

  /** The departure date, the single arrival and the order around it: three guards, and together
      exactly what keeps a timeline in order. */
  lemma CreateEventIsExact(y: Yard, s: nat, kind: Milestone, at: int)
    requires Inv(y)
    ensures Exactly(Apply(y, OpCreateEvent(s, kind, at)), true, y.(events := y.events + [Event(s, kind, at, false)]))
  {
    var n := y.(events := y.events + [Event(s, kind, at, false)]);
    var last := |y.events|;
    if CreateEvent(y, s, kind, at).Ok? { CreateEventKeepsInv(y, s, kind, at); }
    if Inv(n) {
      assert EventOk(n.ships, n.events[last]);
      forall e | 0 <= e < |y.events| && Tracked(y.events[e], s)
        ensures ArrivalLast(n.events[last], y.events[e]) && ArrivalLast(y.events[e], n.events[last])
      {
        assert n.events[e] == y.events[e];
      }
    }
  }

  /** A correction of an active event, of its milestone, its date, both or neither: what is not given stays as it
      was, and the correction is accepted exactly when the event so corrected fits the timeline. */
  lemma UpdateEventIsExact(y: Yard, s: nat, e: nat, kind: Option<Milestone>, at: Option<int>)
    requires Inv(y)
    ensures e >= |y.events| ==> Apply(y, OpUpdateEvent(s, e, kind, at)).Err?
    ensures e < |y.events| ==>
              var corrected := Event(s, if kind.Some? then kind.value else y.events[e].kind,
                                     if at.Some? then at.value else y.events[e].at, false);
              Exactly(Apply(y, OpUpdateEvent(s, e, kind, at)), y.events[e].ship == s && !y.events[e].deleted,
                      y.(events := y.events[e := corrected]))
  {
    if e < |y.events| {
      var k := if kind.Some? then kind.value else y.events[e].kind;
      var t := if at.Some? then at.value else y.events[e].at;
      if UpdateEvent(y, s, e, kind, at).Ok? { UpdateEventKeepsInv(y, s, e, kind, at); }
      if Inv(y.(events := y.events[e := Event(s, k, t, false)])) && Tracked(y.events[e], s) {
        CorrectedFits(y, s, e, k, t);
      }
    }
  }

  /** In a safe yard a corrected event comes after its departure and keeps the arrival last. */
  lemma CorrectedFits(y: Yard, s: nat, e: nat, kind: Milestone, at: int)
    requires e < |y.events| && Tracked(y.events[e], s) && Inv(y.(events := y.events[e := Event(s, kind, at, false)]))
    ensures EventGuard(y, s).None? && !BeforeDeparture(y, s, at)
    ensures (kind == Arrived ==> !HasArrived(y, s, Some(e))) && ArrivedIsTerminal(y, s, kind, at, Some(e))
  {
    var n := y.(events := y.events[e := Event(s, kind, at, false)]);
    assert EventOk(n.ships, n.events[e]);
    forall f | 0 <= f < |y.events| && Other(y, s, f, Some(e))
      ensures ArrivalLast(n.events[e], y.events[f]) && ArrivalLast(y.events[f], n.events[e])
    {
      assert n.events[f] == y.events[f];
    }
  }

  /** Withdrawing a declaration or an event needs no more than an active row of a shipment in its state:
      deleting one frees its number, and its shipment for a new one or for its correction. */
  lemma WithdrawalsReopen(y: Yard, s: nat, c: nat, e: nat)
    requires Inv(y) && s < |y.ships|
    ensures Apply(y, OpDeleteDecl(s, c)).Ok? <==> c < |y.decls| && Declared(y.decls[c], s)
    ensures Apply(y, OpDeleteDecl(s, c)).Ok? ==>
              var n := Apply(y, OpDeleteDecl(s, c)).value;
              && Inv(n) && !HasCustoms(n, s) && !NumberUsed(n, y.decls[c].no, None)
              && (y.ships[s].status == Loaded ==> Unload(n, s).Ok?)
              && n == y.(decls := n.decls) && |n.decls| == |y.decls|
              && (forall d :: 0 <= d < |y.decls| && d != c ==> n.decls[d] == y.decls[d])
    ensures Apply(y, OpDeleteEvent(s, e)).Ok? <==> e < |y.events| && Tracked(y.events[e], s)
    ensures Apply(y, OpDeleteEvent(s, e)).Ok? ==>
              var n := Apply(y, OpDeleteEvent(s, e)).value;
              && Inv(n) && CreateEvent(n, s, y.events[e].kind, y.events[e].at).Ok?
              && (Undepart(n, s).Ok? <==> forall f :: 0 <= f < |y.events| && f != e ==> !Tracked(y.events[f], s))
              && n == y.(events := n.events) && |n.events| == |y.events|
              && (forall f :: 0 <= f < |y.events| && f != e ==> n.events[f] == y.events[f])
  {
    assert ShipOk(y.ships[s]);
    if c < |y.decls| && Declared(y.decls[c], s) { WithdrawnDeclaration(y, s, c); }
    if e < |y.events| && Tracked(y.events[e], s) { WithdrawnEvent(y, s, e); }
  }

  lemma WithdrawnDeclaration(y: Yard, s: nat, c: nat)
    requires Inv(y) && s < |y.ships| && c < |y.decls| && Declared(y.decls[c], s)
    ensures DeleteDecl(y, s, c).Ok?
    ensures var n := DeleteDecl(y, s, c).value;
            Inv(n) && !HasCustoms(n, s) && !NumberUsed(n, y.decls[c].no, None)
  {
    var n := DeleteDecl(y, s, c).value;
    forall d | 0 <= d < |n.decls| && !n.decls[d].deleted ensures n.decls[d].ship != s && n.decls[d].no != y.decls[c].no {
      var low, high := if c < d then c else d, if c < d then d else c;
      assert y.decls[low].ship != y.decls[high].ship && y.decls[low].no != y.decls[high].no;
    }
  }

  lemma WithdrawnEvent(y: Yard, s: nat, e: nat)
    requires Inv(y) && s < |y.ships| && e < |y.events| && Tracked(y.events[e], s)
    ensures DeleteEvent(y, s, e).Ok?
    ensures var n := DeleteEvent(y, s, e).value;
            && Inv(n) && CreateEvent(n, s, y.events[e].kind, y.events[e].at).Ok?
            && (Undepart(n, s).Ok? <==> forall f :: 0 <= f < |y.events| && f != e ==> !Tracked(y.events[f], s))
  {
    assert EventOk(y.ships, y.events[e]) && ShipOk(y.ships[s]);
    var n := DeleteEvent(y, s, e).value;
    var again := n.(events := n.events + [y.events[e]]);
    forall f | 0 <= f < |n.events| && !n.events[f].deleted
      ensures EventOk(n.ships, n.events[f])
      ensures ArrivalLast(y.events[e], n.events[f]) && ArrivalLast(n.events[f], y.events[e])
    {
      assert n.events[f] == y.events[f] && f != e && EventOk(y.ships, y.events[f]);
    }
    CreateEventIsExact(n, s, y.events[e].kind, y.events[e].at);
    assert y.events[e] == Event(s, y.events[e].kind, y.events[e].at, false);
    assert Inv(again);
    if f: nat :| f < |y.events| && f != e && Tracked(y.events[f], s) {
      assert Tracked(n.events[f], s);
    }
  }

  // ---------- What no run takes back ----------

  /** Rows never vanish; an issued or cancelled outbound order, a cancelled shipment and a withdrawn
      row are final; an outbound order never changes its shipment or its sales order. */
  ghost predicate Later(y: Yard, n: Yard) {
    && |y.ships| <= |n.ships| && |y.outs| <= |n.outs| && |y.decls| <= |n.decls| && |y.events| <= |n.events|
    && (forall s :: 0 <= s < |y.ships| && y.ships[s].status == ShipCancelled ==> n.ships[s] == y.ships[s])
    && (forall o :: 0 <= o < |y.outs| ==>
          && n.outs[o] == y.outs[o].(status := n.outs[o].status)
          && (y.outs[o].status != Draft ==> n.outs[o] == y.outs[o]))
    && (forall c :: 0 <= c < |y.decls| ==>
          n.decls[c].ship == y.decls[c].ship && (y.decls[c].deleted ==> n.decls[c] == y.decls[c]))
    && (forall e :: 0 <= e < |y.events| ==>
          n.events[e].ship == y.events[e].ship && (y.events[e].deleted ==> n.events[e] == y.events[e]))
  }

  lemma StepIsLater(y: Yard, op: Op)
    ensures Later(y, Step(y, op))
  {}

  lemma {:induction false} FinalRowsStay(y: Yard, ops: seq<Op>)
    ensures Later(y, Run(y, ops))
    decreases |ops|
  {
    if ops != [] {
      StepIsLater(y, ops[0]);
      FinalRowsStay(Step(y, ops[0]), ops[1..]);
    }
  }
}
