/**
 The shipment (one container), the outbound orders stuffed into it, its customs declaration
 and its logistics events: four state machines that guard one another. Dates are day numbers.
 */
module Shipments {
  import opened Base
  import opened Ordering

  datatype ShipStatus = Open | Loaded | Departed | ShipCancelled

  datatype Ship = Ship(status: ShipStatus, loadedAt: Option<int>, atd: Option<int>)

  datatype OutStatus = Draft | Issued | OutCancelled

  datatype Outbound = Outbound(so: nat, ship: nat, status: OutStatus)

  datatype Declaration = Declaration(ship: nat, no: string, declared: int, released: Option<int>, deleted: bool)

  /** ARRIVED ends the timeline; the other milestones are told apart by name. */
  datatype Milestone = Arrived | Underway(name: string)

  datatype Event = Event(ship: nat, kind: Milestone, at: int, deleted: bool)

  datatype Yard = Yard(ships: seq<Ship>, outs: seq<Outbound>, decls: seq<Declaration>, events: seq<Event>)

  datatype Error =
    | NotFound | InvalidTransition | HasActiveOutbound | Empty | HasDraft(drafts: seq<nat>)
    | HasActiveCustoms | HasActiveEvent | SourceNotReady | ShipNotOpen | DraftExists
    | NotDeclarable | DuplicateActive | NumberTaken | NotOnShipment | Invalid
    | NotDeparted | DuplicateArrived

  const EMPTY := Yard([], [], [], [])

  predicate Inside(o: Outbound, s: nat) { o.ship == s && o.status != OutCancelled }

  predicate Drafted(o: Outbound, s: nat) { o.ship == s && o.status == Draft }

  predicate Declared(c: Declaration, s: nat) { c.ship == s && !c.deleted }

  predicate Tracked(e: Event, s: nat) { e.ship == s && !e.deleted }

  predicate UnderSeal(st: ShipStatus) { st == Loaded || st == Departed }

  // ---------- The shipment ----------

  function SetShip(y: Yard, s: nat, ship: Ship): Yard
    requires s < |y.ships|
  {
    y.(ships := y.ships[s := ship])
  }

  /** The draft orders of a shipment, by row. */
  function Drafts(outs: seq<Outbound>, s: nat): (ids: seq<nat>)
    ensures forall o: nat :: o in ids <==> o < |outs| && Drafted(outs[o], s)
    ensures forall i, j :: 0 <= i < j < |ids| ==> ids[i] < ids[j]
  {
    if outs == [] then []
    else
      var n := |outs| - 1;
      var front := Drafts(outs[..n], s);
      assert forall i :: 0 <= i < |front| ==> front[i] in front;
      if Drafted(outs[n], s) then front + [n] else front
  }

  predicate HasOutbound(y: Yard, s: nat) {
    exists o :: 0 <= o < |y.outs| && Inside(y.outs[o], s)
  }

  function Load(y: Yard, s: nat, now: int): (r: Result<Yard, Error>) {
    if s >= |y.ships| then Err(NotFound)
    else if y.ships[s].status != Open then Err(InvalidTransition)
    else if !HasOutbound(y, s) then Err(Empty)
    else if Drafts(y.outs, s) != [] then Err(HasDraft(Drafts(y.outs, s)))
    else Ok(SetShip(y, s, y.ships[s].(status := Loaded, loadedAt := Some(now))))
  }

  predicate HasCustoms(y: Yard, s: nat) {
    exists c :: 0 <= c < |y.decls| && Declared(y.decls[c], s)
  }

  function Unload(y: Yard, s: nat): (r: Result<Yard, Error>) {
    if s >= |y.ships| then Err(NotFound)
    else if y.ships[s].status != Loaded then Err(InvalidTransition)
    else if HasCustoms(y, s) then Err(HasActiveCustoms)
    else Ok(SetShip(y, s, y.ships[s].(status := Open, loadedAt := None)))
  }

  function Depart(y: Yard, s: nat, atd: int): (r: Result<Yard, Error>) {
    if s >= |y.ships| then Err(NotFound)
    else if y.ships[s].status != Loaded then Err(InvalidTransition)
    else Ok(SetShip(y, s, y.ships[s].(status := Departed, atd := Some(atd))))
  }

  predicate HasEvent(y: Yard, s: nat) {
    exists e :: 0 <= e < |y.events| && Tracked(y.events[e], s)
  }

  function Undepart(y: Yard, s: nat): (r: Result<Yard, Error>) {
    if s >= |y.ships| then Err(NotFound)
    else if y.ships[s].status != Departed then Err(InvalidTransition)
    else if HasEvent(y, s) then Err(HasActiveEvent)
    else Ok(SetShip(y, s, y.ships[s].(status := Loaded, atd := None)))
  }

  function CancelShip(y: Yard, s: nat): (r: Result<Yard, Error>) {
    if s >= |y.ships| then Err(NotFound)
    else if y.ships[s].status != Open then Err(InvalidTransition)
    else if HasOutbound(y, s) then Err(HasActiveOutbound)
    else Ok(SetShip(y, s, y.ships[s].(status := ShipCancelled)))
  }

  // ---------- Outbound orders ----------

  predicate IsOpen(y: Yard, s: nat) { s < |y.ships| && y.ships[s].status == Open }

  /** `confirmed` says whether the sales order is CONFIRMED. */
  function CreateOut(y: Yard, so: nat, s: nat, confirmed: bool): (r: Result<Yard, Error>) {
    if !confirmed then Err(SourceNotReady)
    else if !IsOpen(y, s) then Err(ShipNotOpen)
    else if exists o :: 0 <= o < |y.outs| && Drafted(y.outs[o], s) && y.outs[o].so == so then Err(DraftExists)
    else Ok(y.(outs := y.outs + [Outbound(so, s, Draft)]))
  }

  function SetOut(y: Yard, o: nat, status: OutStatus): Yard
    requires o < |y.outs|
  {
    y.(outs := y.outs[o := y.outs[o].(status := status)])
  }

  /** `confirmed` as above; `stock` says whether every product of the order is available. */
  function ConfirmOut(y: Yard, o: nat, confirmed: bool, stock: bool): (r: Result<Yard, Error>) {
    if o >= |y.outs| then Err(NotFound)
    else if y.outs[o].status != Draft then Err(InvalidTransition)
    else if !confirmed then Err(SourceNotReady)
    else if !IsOpen(y, y.outs[o].ship) then Err(ShipNotOpen)
    else if !stock then Err(Invalid)
    else Ok(SetOut(y, o, Issued))
  }

  function CancelOut(y: Yard, o: nat): (r: Result<Yard, Error>) {
    if o >= |y.outs| then Err(NotFound)
    else if y.outs[o].status != Draft then Err(InvalidTransition)
    else Ok(SetOut(y, o, OutCancelled))
  }

  // ---------- Customs ----------

  predicate Declarable(y: Yard, s: nat) { s < |y.ships| && UnderSeal(y.ships[s].status) }

  predicate NumberUsed(y: Yard, no: string, except: Option<nat>) {
    exists c :: 0 <= c < |y.decls| && !y.decls[c].deleted && y.decls[c].no == no && except != Some(c)
  }

  predicate DatesOk(declared: int, released: Option<int>) {
    released.Some? ==> released.value >= declared
  }

  function CreateDecl(y: Yard, s: nat, no: string, declared: int, released: Option<int>): (r: Result<Yard, Error>) {
    if s >= |y.ships| then Err(NotFound)
    else if !Declarable(y, s) then Err(NotDeclarable)
    else if HasCustoms(y, s) then Err(DuplicateActive)
    else if NumberUsed(y, no, None) then Err(NumberTaken)
    else if !DatesOk(declared, released) then Err(Invalid)
    else Ok(y.(decls := y.decls + [Declaration(s, no, declared, released, false)]))
  }

  function DeclGuard(y: Yard, s: nat, c: nat): Option<Error> {
    if s >= |y.ships| then Some(NotFound)
    else if !Declarable(y, s) then Some(NotDeclarable)
    else if c >= |y.decls| || y.decls[c].deleted then Some(NotFound)
    else if y.decls[c].ship != s then Some(NotOnShipment)
    else None
  }

  function UpdateDecl(y: Yard, s: nat, c: nat, no: string, declared: int, released: Option<int>): (r: Result<Yard, Error>) {
    match DeclGuard(y, s, c)
    case Some(e) => Err(e)
    case None =>
      if no != y.decls[c].no && NumberUsed(y, no, Some(c)) then Err(NumberTaken)
      else if !DatesOk(declared, released) then Err(Invalid)
      else Ok(y.(decls := y.decls[c := y.decls[c].(no := no, declared := declared, released := released)]))
  }

  function DeleteDecl(y: Yard, s: nat, c: nat): (r: Result<Yard, Error>) {
    match DeclGuard(y, s, c)
    case Some(e) => Err(e)
    case None => Ok(y.(decls := y.decls[c := y.decls[c].(deleted := true)]))
  }

  // ---------- Logistics events ----------

  predicate Other(y: Yard, s: nat, e: nat, except: Option<nat>) {
    e < |y.events| && Tracked(y.events[e], s) && except != Some(e)
  }

  predicate HasArrived(y: Yard, s: nat, except: Option<nat>) {
    exists e :: 0 <= e < |y.events| && Other(y, s, e, except) && y.events[e].kind == Arrived
  }

  /** Arrival may not come before another event, nor another event after the arrival. */
  predicate ArrivedIsTerminal(y: Yard, s: nat, kind: Milestone, at: int, except: Option<nat>) {
    if kind == Arrived then forall e :: 0 <= e < |y.events| && Other(y, s, e, except) ==> y.events[e].at <= at
    else forall e :: 0 <= e < |y.events| && Other(y, s, e, except) && y.events[e].kind == Arrived ==> at <= y.events[e].at
  }

  function EventGuard(y: Yard, s: nat): Option<Error> {
    if s >= |y.ships| then Some(NotFound)
    else if y.ships[s].status != Departed then Some(NotDeparted)
    else None
  }

  predicate BeforeDeparture(y: Yard, s: nat, at: int)
    requires s < |y.ships|
  {
    y.ships[s].atd.Some? && at < y.ships[s].atd.value
  }

  function CreateEvent(y: Yard, s: nat, kind: Milestone, at: int): (r: Result<Yard, Error>) {
    match EventGuard(y, s)
    case Some(e) => Err(e)
    case None =>
      if BeforeDeparture(y, s, at) then Err(Invalid)
      else if kind == Arrived && HasArrived(y, s, None) then Err(DuplicateArrived)
      else if !ArrivedIsTerminal(y, s, kind, at, None) then Err(Invalid)
      else Ok(y.(events := y.events + [Event(s, kind, at, false)]))
  }

  function ActiveEvent(y: Yard, s: nat, e: nat): Option<Error> {
    if e >= |y.events| || y.events[e].deleted then Some(NotFound)
    else if y.events[e].ship != s then Some(NotOnShipment)
    else None
  }

  /** A correction: only the fields given are overwritten. */
  function UpdateEvent(y: Yard, s: nat, e: nat, kind: Option<Milestone>, at: Option<int>): (r: Result<Yard, Error>) {
    match EventGuard(y, s)
    case Some(error) => Err(error)
    case None =>
      match ActiveEvent(y, s, e)
      case Some(error) => Err(error)
      case None =>
        var k := if kind.Some? then kind.value else y.events[e].kind;
        var t := if at.Some? then at.value else y.events[e].at;
        if k == Arrived && HasArrived(y, s, Some(e)) then Err(DuplicateArrived)
        else if BeforeDeparture(y, s, t) then Err(Invalid)
        else if !ArrivedIsTerminal(y, s, k, t, Some(e)) then Err(Invalid)
        else Ok(y.(events := y.events[e := Event(s, k, t, false)]))
  }

  function DeleteEvent(y: Yard, s: nat, e: nat): (r: Result<Yard, Error>) {
    match EventGuard(y, s)
    case Some(error) => Err(error)
    case None =>
      match ActiveEvent(y, s, e)
      case Some(error) => Err(error)
      case None => Ok(y.(events := y.events[e := y.events[e].(deleted := true)]))
  }

  // ---------- Steps ----------

  datatype Op =
    | OpCreateShip
    | OpLoad(s: nat, now: int)
    | OpUnload(s: nat)
    | OpDepart(s: nat, day: int)
    | OpUndepart(s: nat)
    | OpCancelShip(s: nat)
    | OpCreateOut(so: nat, s: nat, confirmed: bool)
    | OpConfirmOut(o: nat, confirmed: bool, stock: bool)
    | OpCancelOut(o: nat)
    | OpCreateDecl(s: nat, no: string, declared: int, released: Option<int>)
    | OpUpdateDecl(s: nat, c: nat, no: string, declared: int, released: Option<int>)
    | OpDeleteDecl(s: nat, c: nat)
    | OpCreateEvent(s: nat, milestone: Milestone, day: int)
    | OpUpdateEvent(s: nat, e: nat, kind: Option<Milestone>, at: Option<int>)
    | OpDeleteEvent(s: nat, e: nat)

  function Apply(y: Yard, op: Op): Result<Yard, Error> {
    match op
    case OpCreateShip => Ok(y.(ships := y.ships + [Ship(Open, None, None)]))
    case OpLoad(s, now) => Load(y, s, now)
    case OpUnload(s) => Unload(y, s)
    case OpDepart(s, day) => Depart(y, s, day)
    case OpUndepart(s) => Undepart(y, s)
    case OpCancelShip(s) => CancelShip(y, s)
    case OpCreateOut(so, s, confirmed) => CreateOut(y, so, s, confirmed)
    case OpConfirmOut(o, confirmed, stock) => ConfirmOut(y, o, confirmed, stock)
    case OpCancelOut(o) => CancelOut(y, o)
    case OpCreateDecl(s, no, declared, released) => CreateDecl(y, s, no, declared, released)
    case OpUpdateDecl(s, c, no, declared, released) => UpdateDecl(y, s, c, no, declared, released)
    case OpDeleteDecl(s, c) => DeleteDecl(y, s, c)
    case OpCreateEvent(s, kind, at) => CreateEvent(y, s, kind, at)
    case OpUpdateEvent(s, e, kind, at) => UpdateEvent(y, s, e, kind, at)
    case OpDeleteEvent(s, e) => DeleteEvent(y, s, e)
  }

  function Step(y: Yard, op: Op): Yard {
    match Apply(y, op) case Ok(n) => n case Err(_) => y
  }

  function Run(y: Yard, ops: seq<Op>): Yard
    decreases |ops|
  {
    if ops == [] then y else Run(Step(y, ops[0]), ops[1..])
  }

  // ---------- What every run keeps ----------

  /** The dates of a shipment are set exactly in the matching states. */
  predicate ShipOk(ship: Ship) {
    && (ship.loadedAt.Some? <==> UnderSeal(ship.status))
    && (ship.atd.Some? <==> ship.status == Departed)
  }

  /** What is under seal holds at least one outbound order, and nothing but issued ones. */
  ghost predicate CargoOk(ships: seq<Ship>, outs: seq<Outbound>, s: nat)
    requires s < |ships|
  {
    && (UnderSeal(ships[s].status) ==>
          && (exists o :: 0 <= o < |outs| && Inside(outs[o], s))
          && (forall o :: 0 <= o < |outs| && Inside(outs[o], s) ==> outs[o].status == Issued))
    && (ships[s].status == ShipCancelled ==> forall o :: 0 <= o < |outs| ==> !Inside(outs[o], s))
  }

  ghost predicate OutsOk(ships: seq<Ship>, outs: seq<Outbound>) {
    && (forall o :: 0 <= o < |outs| ==> outs[o].ship < |ships|)
    && (forall o, p :: 0 <= o < p < |outs| && outs[o].status == Draft && outs[p].status == Draft ==>
          outs[o].ship != outs[p].ship || outs[o].so != outs[p].so)
    && (forall s :: 0 <= s < |ships| ==> ShipOk(ships[s]) && CargoOk(ships, outs, s))
  }

  ghost predicate DeclsOk(ships: seq<Ship>, decls: seq<Declaration>) {
    && (forall c :: 0 <= c < |decls| && !decls[c].deleted ==>
          && decls[c].ship < |ships| && UnderSeal(ships[decls[c].ship].status)
          && (decls[c].released.Some? ==> decls[c].declared <= decls[c].released.value))
    && (forall c, d :: 0 <= c < d < |decls| && !decls[c].deleted && !decls[d].deleted ==>
          decls[c].ship != decls[d].ship && decls[c].no != decls[d].no)
  }

  ghost predicate EventOk(ships: seq<Ship>, e: Event) {
    e.ship < |ships| && ships[e.ship].status == Departed
    && ships[e.ship].atd.Some? && ships[e.ship].atd.value <= e.at
  }

  /** No two arrivals of one shipment, and nothing dated after its arrival. */
  predicate ArrivalLast(a: Event, b: Event) {
    a.ship == b.ship && a.kind == Arrived ==> b.kind != Arrived && b.at <= a.at
  }

  predicate Together(a: Event, b: Event) { a.ship == b.ship && !a.deleted && !b.deleted }

  ghost predicate EventsOk(ships: seq<Ship>, events: seq<Event>) {
    && (forall e :: 0 <= e < |events| && !events[e].deleted ==> EventOk(ships, events[e]))
    && (forall e, f :: 0 <= e < |events| && 0 <= f < |events| && e != f && !events[e].deleted && !events[f].deleted
          ==> ArrivalLast(events[e], events[f]))
  }

  ghost predicate Inv(y: Yard) {
    OutsOk(y.ships, y.outs) && DeclsOk(y.ships, y.decls) && EventsOk(y.ships, y.events)
  }

  /** A shipment changes state; what hangs on it must allow the new one. */
  lemma SetShipKeepsInv(y: Yard, s: nat, ship: Ship)
    requires Inv(y) && s < |y.ships| && ShipOk(ship)
    requires CargoOk(y.ships[s := ship], y.outs, s)
    requires UnderSeal(ship.status) || !HasCustoms(y, s)
    requires !HasEvent(y, s)
    ensures Inv(SetShip(y, s, ship))
  {
    var n := SetShip(y, s, ship);
    forall t | 0 <= t < |n.ships| ensures ShipOk(n.ships[t]) && CargoOk(n.ships, n.outs, t) {
      assert CargoOk(y.ships, y.outs, t);
    }
    forall c | 0 <= c < |n.decls| && !n.decls[c].deleted ensures n.decls[c].ship == s ==> HasCustoms(y, s) {
      assert n.decls[c].ship == s ==> Declared(y.decls[c], s);
    }
    forall e | 0 <= e < |n.events| && !n.events[e].deleted ensures n.events[e].ship != s && EventOk(n.ships, n.events[e]) {
      assert EventOk(y.ships, y.events[e]) && !Tracked(y.events[e], s);
    }
  }

  lemma OnlyDepartedHaveEvents(y: Yard, s: nat)
    requires Inv(y) && (s >= |y.ships| || y.ships[s].status != Departed)
    ensures !HasEvent(y, s)
  {
    forall e | 0 <= e < |y.events| ensures !Tracked(y.events[e], s) {
      if !y.events[e].deleted { assert EventOk(y.ships, y.events[e]); }
    }
  }

  lemma OnlySealedHaveCustoms(y: Yard, s: nat)
    requires Inv(y) && (s >= |y.ships| || !UnderSeal(y.ships[s].status))
    ensures !HasCustoms(y, s)
  {}

  lemma ShipStepKeepsInv(y: Yard, op: Op)
    requires Inv(y) && Apply(y, op).Ok?
    requires op.OpLoad? || op.OpUnload? || op.OpDepart? || op.OpUndepart? || op.OpCancelShip?
    ensures Inv(Apply(y, op).value)
  {
    var n := Apply(y, op).value;
    var s := op.s;
    assert ShipOk(y.ships[s]) && CargoOk(y.ships, y.outs, s);
    if y.ships[s].status != Departed { OnlyDepartedHaveEvents(y, s); }
    if y.ships[s].status == Open { OnlySealedHaveCustoms(y, s); }
    if op.OpLoad? {
      forall o | 0 <= o < |y.outs| && Inside(y.outs[o], s) ensures y.outs[o].status == Issued {
        assert o !in Drafts(y.outs, s);
      }
    }
    SetShipKeepsInv(y, s, n.ships[s]);
  }

  /** A draft appears or changes: nothing under seal is touched, since it holds no drafts. */
  lemma DraftStepKeepsCargo(ships: seq<Ship>, outs: seq<Outbound>, after: seq<Outbound>, o: nat, s: nat)
    requires s < |ships| && CargoOk(ships, outs, s) && o < |after| && |outs| <= |after| <= |outs| + 1
    requires forall x :: 0 <= x < |after| && x != o ==> x < |outs| && after[x] == outs[x]
    requires o < |outs| ==> outs[o].status == Draft && after[o].ship == outs[o].ship
    requires Inside(after[o], s) && after[o].status != Issued ==> ships[s].status == Open
    requires after[o].status == Issued && after[o].ship == s ==> ships[s].status == Open
    ensures CargoOk(ships, after, s)
  {
    if UnderSeal(ships[s].status) {
      var x :| 0 <= x < |outs| && Inside(outs[x], s);
      assert outs[x].status == Issued && Inside(after[x], s);
    }
  }

  lemma OutStepKeepsInv(y: Yard, op: Op)
    requires Inv(y) && Apply(y, op).Ok? && (op.OpCreateOut? || op.OpConfirmOut? || op.OpCancelOut?)
    ensures Inv(Apply(y, op).value)
  {
    var n := Apply(y, op).value;
    var o := if op.OpCreateOut? then |y.outs| else op.o;
    forall s | 0 <= s < |n.ships| ensures CargoOk(n.ships, n.outs, s) {
      assert CargoOk(y.ships, y.outs, s);
      DraftStepKeepsCargo(y.ships, y.outs, n.outs, o, s);
    }
  }

  lemma CreateShipKeepsInv(y: Yard)
    requires Inv(y)
    ensures Inv(Step(y, OpCreateShip))
  {
    var n := Step(y, OpCreateShip);
    forall s | 0 <= s < |n.ships| ensures ShipOk(n.ships[s]) && CargoOk(n.ships, n.outs, s) {
      if s < |y.ships| { assert CargoOk(y.ships, y.outs, s); }
    }
    forall e | 0 <= e < |n.events| && !n.events[e].deleted ensures EventOk(n.ships, n.events[e]) {
      assert EventOk(y.ships, y.events[e]);
    }
  }

  lemma CreateDeclKeepsInv(y: Yard, s: nat, no: string, declared: int, released: Option<int>)
    requires Inv(y) && CreateDecl(y, s, no, declared, released).Ok?
    ensures Inv(CreateDecl(y, s, no, declared, released).value)
  {
    forall c | 0 <= c < |y.decls| && !y.decls[c].deleted ensures y.decls[c].ship != s && y.decls[c].no != no {
      assert !Declared(y.decls[c], s);
    }
  }

  lemma UpdateDeclKeepsInv(y: Yard, s: nat, c: nat, no: string, declared: int, released: Option<int>)
    requires Inv(y) && UpdateDecl(y, s, c, no, declared, released).Ok?
    ensures Inv(UpdateDecl(y, s, c, no, declared, released).value)
  {
    forall d | 0 <= d < |y.decls| && !y.decls[d].deleted && d != c ensures y.decls[d].no != no {
      if no == y.decls[c].no {
        var low, high := if c < d then c else d, if c < d then d else c;
        assert y.decls[low].no != y.decls[high].no;
      }
    }
  }

  /** A new or corrected event fits among the others of its shipment. */
  lemma EventFits(y: Yard, s: nat, event: Event, except: Option<nat>, f: nat)
    requires EventsOk(y.ships, y.events) && Tracked(event, s) && Other(y, s, f, except)
    requires event.kind == Arrived ==> !HasArrived(y, s, except)
    requires ArrivedIsTerminal(y, s, event.kind, event.at, except)
    ensures ArrivalLast(event, y.events[f]) && ArrivalLast(y.events[f], event)
  {}

  lemma CreateEventKeepsInv(y: Yard, s: nat, kind: Milestone, at: int)
    requires Inv(y) && CreateEvent(y, s, kind, at).Ok?
    ensures Inv(CreateEvent(y, s, kind, at).value)
  {
    var n := CreateEvent(y, s, kind, at).value;
    var event := Event(s, kind, at, false);
    assert ShipOk(y.ships[s]);
    forall e | 0 <= e < |n.events| && !n.events[e].deleted ensures EventOk(n.ships, n.events[e]) {
      if e < |y.events| { assert EventOk(y.ships, y.events[e]); }
    }
    forall f | 0 <= f < |y.events| && !y.events[f].deleted
      ensures ArrivalLast(event, y.events[f]) && ArrivalLast(y.events[f], event)
    {
      if y.events[f].ship == s { EventFits(y, s, event, None, f); }
    }
  }

  lemma UpdateEventKeepsInv(y: Yard, s: nat, e: nat, kind: Option<Milestone>, at: Option<int>)
    requires Inv(y) && UpdateEvent(y, s, e, kind, at).Ok?
    ensures Inv(UpdateEvent(y, s, e, kind, at).value)
  {
    var n := UpdateEvent(y, s, e, kind, at).value;
    var event := n.events[e];
    assert ShipOk(y.ships[s]);
    forall x | 0 <= x < |n.events| && !n.events[x].deleted ensures EventOk(n.ships, n.events[x]) {
      if x != e { assert EventOk(y.ships, y.events[x]); }
    }
    forall f | 0 <= f < |y.events| && !y.events[f].deleted && f != e
      ensures ArrivalLast(event, y.events[f]) && ArrivalLast(y.events[f], event)
    {
      if y.events[f].ship == s { EventFits(y, s, event, Some(e), f); }
    }
  }

  lemma StepKeepsInv(y: Yard, op: Op)
    requires Inv(y)
    ensures Inv(Step(y, op))
  {
    if Apply(y, op).Ok? {
      match op
      case OpCreateShip => CreateShipKeepsInv(y);
      case OpLoad(_, _) => ShipStepKeepsInv(y, op);
      case OpUnload(_) => ShipStepKeepsInv(y, op);
      case OpDepart(_, _) => ShipStepKeepsInv(y, op);
      case OpUndepart(_) => ShipStepKeepsInv(y, op);
      case OpCancelShip(_) => ShipStepKeepsInv(y, op);
      case OpCreateOut(_, _, _) => OutStepKeepsInv(y, op);
      case OpConfirmOut(_, _, _) => OutStepKeepsInv(y, op);
      case OpCancelOut(_) => OutStepKeepsInv(y, op);
      case OpCreateDecl(s, no, declared, released) => CreateDeclKeepsInv(y, s, no, declared, released);
      case OpUpdateDecl(s, c, no, declared, released) => UpdateDeclKeepsInv(y, s, c, no, declared, released);
      case OpDeleteDecl(_, _) =>
      case OpCreateEvent(s, kind, at) => CreateEventKeepsInv(y, s, kind, at);
      case OpUpdateEvent(s, e, kind, at) => UpdateEventKeepsInv(y, s, e, kind, at);
      case OpDeleteEvent(_, _) =>
    }
  }

  lemma {:induction false} RunKeepsInv(y: Yard, ops: seq<Op>)
    requires Inv(y)
    ensures Inv(Run(y, ops))
    decreases |ops|
  {
    if ops != [] {
      StepKeepsInv(y, ops[0]);
      RunKeepsInv(Step(y, ops[0]), ops[1..]);
    }
  }

  /** Safety of every run: sealed cargo is issued cargo, customs only under seal, events only at sea,
      dates set exactly in their states, and a timeline that starts at departure and ends at one arrival. */
  lemma EveryRunIsSafe(ops: seq<Op>)
    ensures
      var y := Run(EMPTY, ops);
      && (forall s :: 0 <= s < |y.ships| ==>
            && (y.ships[s].loadedAt.Some? <==> UnderSeal(y.ships[s].status))
            && (y.ships[s].atd.Some? <==> y.ships[s].status == Departed)
            && (UnderSeal(y.ships[s].status) ==>
                  HasOutbound(y, s) && forall o :: 0 <= o < |y.outs| && Inside(y.outs[o], s) ==> y.outs[o].status == Issued)
            && (HasCustoms(y, s) ==> UnderSeal(y.ships[s].status))
            && (HasEvent(y, s) ==> y.ships[s].status == Departed))
      && (forall e :: 0 <= e < |y.events| && !y.events[e].deleted ==> EventOk(y.ships, y.events[e]))
      && (forall e, f :: 0 <= e < |y.events| && 0 <= f < |y.events| && e != f && Together(y.events[e], y.events[f]) ==>
            (y.events[e].kind == Arrived ==> y.events[f].kind != Arrived && y.events[f].at <= y.events[e].at))
  {
    RunKeepsInv(EMPTY, ops);
    var y := Run(EMPTY, ops);
    forall s | 0 <= s < |y.ships|
      ensures ShipOk(y.ships[s]) && CargoOk(y.ships, y.outs, s)
      ensures HasCustoms(y, s) ==> UnderSeal(y.ships[s].status)
      ensures HasEvent(y, s) ==> y.ships[s].status == Departed
    {
      if !UnderSeal(y.ships[s].status) { OnlySealedHaveCustoms(y, s); }
      if y.ships[s].status != Departed { OnlyDepartedHaveEvents(y, s); }
    }
    forall e, f | 0 <= e < |y.events| && 0 <= f < |y.events| && e != f && Together(y.events[e], y.events[f])
      ensures ArrivalLast(y.events[e], y.events[f])
    {}
  }

  /** Loading and unloading undo each other, and so do departing and its correction; each way back is
      open exactly until a declaration, or an event, hangs on the shipment. */
  lemma CorrectionsUndo(y: Yard, s: nat, now: int, day: int)
    requires Inv(y) && s < |y.ships|
    ensures Load(y, s, now).Ok? ==> Unload(Load(y, s, now).value, s) == Ok(y)
    ensures Depart(y, s, day).Ok? ==> Undepart(Depart(y, s, day).value, s) == Ok(y)
    ensures Unload(y, s).Ok? <==> y.ships[s].status == Loaded && !HasCustoms(y, s)
    ensures Undepart(y, s).Ok? <==> y.ships[s].status == Departed && !HasEvent(y, s)
  {
    assert ShipOk(y.ships[s]);
    if Load(y, s, now).Ok? {
      OnlySealedHaveCustoms(y, s);
      var n := Load(y, s, now).value;
      assert !HasCustoms(n, s);
      assert Unload(n, s).value.ships == y.ships;
    }
    if Depart(y, s, day).Ok? {
      OnlyDepartedHaveEvents(y, s);
      var n := Depart(y, s, day).value;
      assert !HasEvent(n, s);
      assert Undepart(n, s).value.ships == y.ships;
    }
  }

  // ---------- The current status, derived twice ----------

  /** ORDER BY event_at, id. */
  predicate Earlier(events: seq<Event>, i: nat, j: nat) {
    && i < |events| && j < |events|
    && if events[i].at != events[j].at then events[i].at < events[j].at else i < j
  }

  function ByDate(events: seq<Event>): Precedes {
    (i: nat, j: nat) => Earlier(events, i, j)
  }

  /** The active events of one shipment among the first n rows, oldest first. */
  function TimelineAmong(events: seq<Event>, s: nat, n: nat): (ids: seq<nat>)
    requires n <= |events|
    ensures Ordered(ByDate(events), ids)
    ensures forall e: nat :: e in ids <==> e < n && Tracked(events[e], s)
  {
    if n == 0 then []
    else
      var ids := TimelineAmong(events, s, n - 1);
      if Tracked(events[n - 1], s) then
        InsertKeepsOrder(ByDate(events), n - 1, ids);
        Insert(ByDate(events), n - 1, ids)
      else ids
  }

  function Timeline(events: seq<Event>, s: nat): (ids: seq<nat>)
    ensures Ordered(ByDate(events), ids)
    ensures forall e: nat :: e in ids <==> e < |events| && Tracked(events[e], s)
  {
    TimelineAmong(events, s, |events|)
  }

  /** ORDER BY (event_type = ARRIVED) DESC, event_at DESC, id DESC: what DISTINCT ON puts first. */
  predicate Ahead(events: seq<Event>, i: nat, j: nat)
    requires i < |events| && j < |events|
  {
    if (events[i].kind == Arrived) != (events[j].kind == Arrived) then events[i].kind == Arrived
    else if events[i].at != events[j].at then events[i].at > events[j].at
    else i > j
  }

  /** The first row of DISTINCT ON for one shipment, among the first n rows. */
  function TopAmong(events: seq<Event>, s: nat, n: nat): (top: Option<nat>)
    requires n <= |events|
    ensures top.Some? ==> top.value < n && Tracked(events[top.value], s)
    ensures top.None? <==> forall e :: 0 <= e < n ==> !Tracked(events[e], s)
    ensures top.Some? ==> forall e :: 0 <= e < n && Tracked(events[e], s) && e != top.value ==> Ahead(events, top.value, e)
  {
    if n == 0 then None
    else
      var top := TopAmong(events, s, n - 1);
      if !Tracked(events[n - 1], s) then top
      else if top.None? || Ahead(events, n - 1, top.value) then Some(n - 1)
      else top
  }

  /** The list page: the type of the first row. */
  function LatestByQuery(events: seq<Event>, s: nat): Option<Milestone> {
    var top := TopAmong(events, s, |events|);
    if top.None? then None else Some(events[top.value].kind)
  }

  function LatestByList(events: seq<Event>, s: nat): Option<Milestone> {
    var ids := Timeline(events, s);
    if ids == [] then None
    else if exists k :: 0 <= k < |ids| && ids[k] < |events| && events[ids[k]].kind == Arrived then Some(Arrived)
    else if ids[|ids| - 1] < |events| then Some(events[ids[|ids| - 1]].kind)
    else None
  }

  /** The detail page scans its ordered list: an arrival if there is one, otherwise the last row. */
  method LatestTypeOf(events: seq<Event>, s: nat) returns (latest: Option<Milestone>)
    ensures latest == LatestByList(events, s)
  {
    var ids := Timeline(events, s);
    assert forall k :: 0 <= k < |ids| ==> ids[k] in ids;
    if ids == [] { return None; }
    for k := 0 to |ids|
      invariant forall j :: 0 <= j < k ==> events[ids[j]].kind != Arrived
    {
      if events[ids[k]].kind == Arrived { return Some(Arrived); }
    }
    return Some(events[ids[|ids| - 1]].kind);
  }

  lemma LastIsLatest(events: seq<Event>, ids: seq<nat>, e: nat)
    requires Ordered(ByDate(events), ids) && e in ids
    ensures ids[|ids| - 1] == e || Earlier(events, e, ids[|ids| - 1])
  {
    var k :| 0 <= k < |ids| && ids[k] == e;
  }

  /** The two derivations give one answer on any set of events; under the invariant the row they
      pick has the latest date of its shipment. */
  lemma LatestAgrees(events: seq<Event>, s: nat)
    ensures LatestByQuery(events, s) == LatestByList(events, s)
  {
    var ids := Timeline(events, s);
    var top := TopAmong(events, s, |events|);
    assert forall k :: 0 <= k < |ids| ==> ids[k] in ids;
    if top.Some? {
      assert top.value in ids;
      if events[top.value].kind == Arrived {
        var k :| 0 <= k < |ids| && ids[k] == top.value;
      } else {
        var last := ids[|ids| - 1];
        LastIsLatest(events, ids, top.value);
        assert Tracked(events[last], s);
        assert last == top.value;
        forall j | 0 <= j < |ids| ensures events[ids[j]].kind != Arrived {
          if ids[j] != top.value { assert Ahead(events, top.value, ids[j]); }
        }
      }
    }
  }

  lemma LatestHasTheLastDate(y: Yard, s: nat, e: nat)
    requires Inv(y) && e < |y.events| && Tracked(y.events[e], s)
    ensures TopAmong(y.events, s, |y.events|).Some?
    ensures y.events[e].at <= y.events[TopAmong(y.events, s, |y.events|).value].at
  {
    var top := TopAmong(y.events, s, |y.events|);
    if e != top.value {
      assert Ahead(y.events, top.value, e);
      assert ArrivalLast(y.events[top.value], y.events[e]);
    }
  }

  // ---------- The services ----------

  /** shipment_service and logistics_event_service over their tables. */
  class YardService {
    var ships: seq<Ship>
    var outs: seq<Outbound>
    var decls: seq<Declaration>
    var events: seq<Event>

    function Contents(): Yard
      reads this
    {
      Yard(ships, outs, decls, events)
    }

    constructor ()
      ensures Contents() == EMPTY
    {
      ships, outs, decls, events := [], [], [], [];
    }

    /** The drafts are collected for the refusal; a shipment without orders is refused first. */
    method LoadShip(s: nat, now: int) returns (r: Result<(), Error>)
      modifies this`ships
      ensures Contents() == Step(old(Contents()), OpLoad(s, now))
      ensures r == match Load(old(Contents()), s, now) case Ok(_) => Ok(()) case Err(e) => Err(e)
    {
      if s >= |ships| { return Err(NotFound); }
      if ships[s].status != Open { return Err(InvalidTransition); }
      var drafts, rows := [], 0;
      for o := 0 to |outs|
        invariant drafts == Drafts(outs[..o], s)
        invariant rows > 0 <==> exists x :: 0 <= x < o && Inside(outs[x], s)
        invariant rows >= 0
      {
        assert outs[..o + 1][..o] == outs[..o];
        if Inside(outs[o], s) { rows := rows + 1; }
        if Drafted(outs[o], s) { drafts := drafts + [o]; }
      }
      assert outs[..|outs|] == outs;
      if rows == 0 { return Err(Empty); }
      if drafts != [] { return Err(HasDraft(drafts)); }
      ships := ships[s := ships[s].(status := Loaded, loadedAt := Some(now))];
      r := Ok(());
    }

    method UndepartShip(s: nat) returns (r: Result<(), Error>)
      modifies this`ships
      ensures Contents() == Step(old(Contents()), OpUndepart(s))
      ensures r == match Undepart(old(Contents()), s) case Ok(_) => Ok(()) case Err(e) => Err(e)
    {
      if s >= |ships| { return Err(NotFound); }
      if ships[s].status != Departed { return Err(InvalidTransition); }
      for e := 0 to |events|
        invariant forall x :: 0 <= x < e ==> !Tracked(events[x], s)
      {
        if Tracked(events[e], s) { return Err(HasActiveEvent); }
      }
      ships := ships[s := ships[s].(status := Loaded, atd := None)];
      r := Ok(());
    }

    /** _has_active_arrived, leaving out the event under correction. */
    method AnyArrived(s: nat, except: Option<nat>) returns (found: bool)
      ensures found == HasArrived(Contents(), s, except)
    {
      for e := 0 to |events|
        invariant forall x :: 0 <= x < e ==> !(Other(Contents(), s, x, except) && events[x].kind == Arrived)
      {
        if Other(Contents(), s, e, except) && events[e].kind == Arrived { return true; }
      }
      return false;
    }

    /** _assert_arrived_is_terminal: the latest other event for an arrival, the arrival for any other. */
    method FitsTimeline(s: nat, kind: Milestone, at: int, except: Option<nat>) returns (fits: bool)
      ensures fits == ArrivedIsTerminal(Contents(), s, kind, at, except)
    {
      for e := 0 to |events|
        invariant forall x :: 0 <= x < e && Other(Contents(), s, x, except) ==>
                    if kind == Arrived then events[x].at <= at else events[x].kind == Arrived ==> at <= events[x].at
      {
        if Other(Contents(), s, e, except) {
          if kind == Arrived && events[e].at > at { return false; }
          if kind != Arrived && events[e].kind == Arrived && at > events[e].at { return false; }
        }
      }
      return true;
    }

    method CorrectEvent(s: nat, e: nat, kind: Option<Milestone>, at: Option<int>) returns (r: Result<(), Error>)
      modifies this`events
      ensures Contents() == Step(old(Contents()), OpUpdateEvent(s, e, kind, at))
      ensures r == match UpdateEvent(old(Contents()), s, e, kind, at) case Ok(_) => Ok(()) case Err(error) => Err(error)
      ensures r.Ok? ==>
                && e < |old(events)|
                && events == old(events)[e := Event(s, if kind.Some? then kind.value else old(events)[e].kind,
                                                    if at.Some? then at.value else old(events)[e].at, false)]
    {
      var refused := EventGuard(Contents(), s);
      if refused.Some? { return Err(refused.value); }
      refused := ActiveEvent(Contents(), s, e);
      if refused.Some? { return Err(refused.value); }
      var k := if kind.Some? then kind.value else events[e].kind;
      var t := if at.Some? then at.value else events[e].at;
      var arrived := AnyArrived(s, Some(e));
      if k == Arrived && arrived { return Err(DuplicateArrived); }
      if BeforeDeparture(Contents(), s, t) { return Err(Invalid); }
      var fits := FitsTimeline(s, k, t, Some(e));
      if !fits { return Err(Invalid); }
      events := events[e := Event(s, k, t, false)];
      r := Ok(());
    }
  }
}
