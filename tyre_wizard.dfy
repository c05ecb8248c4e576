/** `fleet_tyre_management/wizards/tyre_operation_wizard.py`: one operation on one
    tyre. The wizard logs a history record for the tyre (and, for a gate check, one
    for every related tyre), guards a mount against an empty vehicle or position, an
    occupied position and an unbalanced or mixed axle, writes the tyre's new state,
    and moves the tyre's lot when the operation has a destination. A guard's
    `UserError` rolls the whole transaction back, histories included. */
module TyreWizard {
  import opened Wrappers
  import opened FleetRecords
  import GateCheck

  /** The stock locations one apply reads: the stock, customers and scrapped
      references, the vehicle's location that `_get_vehicle_location` finds or
      creates, the vendor's customer location (0 when the vendor has none), and the
      location of the tyre's lot, where a move starts. */
  datatype Locations = Locations(
    stock: nat,
    customers: nat,
    scrapped: nat,
    vehicle: nat,
    vendorCustomer: nat,
    lot: nat)

  /** The wizard's fields. */
  datatype Form = Form(
    tyre: nat,
    operation: Operation,
    vehicle: nat,
    position: nat,
    related: seq<nat>,
    destination: nat,
    date: int,
    odometer: real,
    treadDepth: real,
    cost: real,
    vendor: nat,
    reason: string,
    scanType: Option<ScanType>)

  datatype ApplyError =
    | VehicleAndPositionRequired
    | PositionOccupied(occupant: nat)
    | UnbalancedAxle(partner: nat, diff: real)
    | TyreMixing(partner: nat)

  /** `self.tread_depth or tyre.current_tread_depth`: a depth of 0 counts as not given. */
  function OrCurrent(given: real, current: real): real
  {
    if given != 0.0 then given else current
  }

  /** `self.destination_location_id or env.ref('stock.stock_location_stock')`. */
  function OrStock(destination: nat, locs: Locations): nat
  {
    if destination != 0 then destination else locs.stock
  }

  function Abs(x: real): real
  {
    if x < 0.0 then -x else x
  }

  predicate MountedAt(t: Tyre, vehicle: nat, position: nat)
  {
    t.vehicle == vehicle && t.position == position && t.state == Mounted
  }

  /** The occupied-position search (`limit=1`): the first tyre mounted on the
      vehicle at the position. */
  function Occupant(tyres: seq<Tyre>, vehicle: nat, position: nat): (r: Option<Tyre>)
    ensures r.Some? ==> r.value in tyres && MountedAt(r.value, vehicle, position)
    ensures r.None? <==> forall t :: t in tyres ==> !MountedAt(t, vehicle, position)
    decreases |tyres|
  {
    if tyres == [] then None
    else if MountedAt(tyres[0], vehicle, position) then Some(tyres[0])
    else
      assert tyres == [tyres[0]] + tyres[1..];
      Occupant(tyres[1..], vehicle, position)
  }

  /** A mounted tyre of the vehicle at a position of the given axle. */
  predicate OnAxle(t: Tyre, vehicle: nat, axle: int, axleOf: nat -> int)
  {
    t.vehicle == vehicle && t.position != 0 && axleOf(t.position) == axle && t.state == Mounted
  }

  /** The partner search: the mounted tyres on the same axle of the vehicle, in
      table order. */
  function Partners(tyres: seq<Tyre>, vehicle: nat, axle: int, axleOf: nat -> int): (p: seq<Tyre>)
    ensures forall t :: t in p <==> t in tyres && OnAxle(t, vehicle, axle, axleOf)
    decreases |tyres|
  {
    if tyres == [] then []
    else
      var last := tyres[|tyres| - 1];
      var front := Partners(tyres[..|tyres| - 1], vehicle, axle, axleOf);
      assert tyres == tyres[..|tyres| - 1] + [last];
      if OnAxle(last, vehicle, axle, axleOf) then front + [last] else front
  }

  /** Tread depths on one axle differ by at most 3 mm. */
  predicate Balanced(newTread: real, partner: Tyre)
  {
    Abs(newTread - partner.tread) <= 3.0
  }

  /** No brand mix on one axle, unless either tyre has no product. */
  predicate SameBrand(tyre: Tyre, partner: Tyre)
  {
    partner.product == 0 || tyre.product == 0 || partner.brand == tyre.brand
  }

  /** What one partner raises: the tread check comes before the brand check. */
  function Complaint(newTread: real, tyre: Tyre, partner: Tyre): (e: Option<ApplyError>)
    ensures e.None? <==> Balanced(newTread, partner) && SameBrand(tyre, partner)
  {
    var diff := Abs(newTread - partner.tread);
    if diff > 3.0 then Some(UnbalancedAxle(partner.id, diff))
    else if partner.product != 0 && tyre.product != 0 && partner.brand != tyre.brand then Some(TyreMixing(partner.id))
    else None
  }

  /** The partner loop raises at the first partner that complains, with that
      partner's complaint. */
  function Conflict(newTread: real, tyre: Tyre, partners: seq<Tyre>): (e: Option<ApplyError>)
    ensures e.None? <==> forall p :: p in partners ==> Balanced(newTread, p) && SameBrand(tyre, p)
    ensures e.Some? ==> exists p :: p in partners && e == Complaint(newTread, tyre, p)
    decreases |partners|
  {
    if partners == [] then None
    else if Complaint(newTread, tyre, partners[0]).Some? then Complaint(newTread, tyre, partners[0])
    else
      assert partners == [partners[0]] + partners[1..];
      Conflict(newTread, tyre, partners[1..])
  }

  /** The three mount guards, in the order the wizard runs them. */
  function MountCheck(f: Form, tyre: Tyre, tyres: seq<Tyre>, axleOf: nat -> int): Option<ApplyError>
  {
    if f.vehicle == 0 || f.position == 0 then Some(VehicleAndPositionRequired)
    else match Occupant(tyres, f.vehicle, f.position)
      case Some(o) => Some(PositionOccupied(o.id))
      case None => Conflict(OrCurrent(f.treadDepth, tyre.tread), tyre, Partners(tyres, f.vehicle, axleOf(f.position), axleOf))
  }

  /** The error an apply raises, if any; only a mount is guarded. */
  function Guard(f: Form, tyre: Tyre, tyres: seq<Tyre>, axleOf: nat -> int): Option<ApplyError>
  {
    if f.operation == Mount then MountCheck(f, tyre, tyres, axleOf) else None
  }

  /** The record after the operation's `tyre.write`. */
  function Written(f: Form, t: Tyre, locs: Locations): Tyre
  {
    match f.operation
    case Mount => t.(state := Mounted, vehicle := f.vehicle, position := f.position, location := 0)
    case Dismount =>
      t.(state := Available, vehicle := 0, position := 0, tread := OrCurrent(f.treadDepth, t.tread),
         location := OrStock(f.destination, locs))
    case GateCheckOp => t
    case Inspection => if f.treadDepth != 0.0 then t.(tread := f.treadDepth) else t
    case Repair => t.(state := InRepair, vehicle := 0, position := 0, location := 0)
    case Retread =>
      t.(state := SentForRetread, vehicle := 0, position := 0, location := 0, retreadCount := t.retreadCount + 1)
    case ReturnStock => t.(state := Available, location := OrStock(f.destination, locs))
    case Dispose =>
      t.(state := Scrapped, vehicle := 0, position := 0, location := 0, disposalReason := f.reason,
         disposalDate := f.date)
  }

  /** Where the operation sends the tyre's lot, 0 for nowhere. */
  function Destination(f: Form, locs: Locations): nat
  {
    match f.operation
    case Mount => locs.vehicle
    case Dismount => OrStock(f.destination, locs)
    case ReturnStock => OrStock(f.destination, locs)
    case Repair => VendorLocation(f, locs)
    case Retread => VendorLocation(f, locs)
    case Dispose => locs.scrapped
    case GateCheckOp => 0
    case Inspection => 0
  }

  /** `vendor.property_stock_customer or env.ref('stock.stock_location_customers')`,
      only when a vendor is given. */
  function VendorLocation(f: Form, locs: Locations): nat
  {
    if f.vendor == 0 then 0
    else if locs.vendorCustomer != 0 then locs.vendorCustomer
    else locs.customers
  }

  /** A move is created only between two known, different locations. */
  function StockMove(tyre: nat, source: nat, destination: nat): (m: Option<Move>)
    ensures m.Some? <==> destination != 0 && source != 0 && source != destination
    ensures m.Some? ==> m.value == Move(tyre, source, destination)
  {
    if destination != 0 && source != 0 && source != destination then Some(Move(tyre, source, destination)) else None
  }

  /** `tyres_to_process`: the tyre, then the related tyres for a gate check. */
  function Processed(f: Form): seq<nat>
  {
    [f.tyre] + if f.operation == GateCheckOp then f.related else []
  }

  /** `history_vals` with the tyre id replaced. The record keeps the operation, whose
      selection key is `HistoryType` (see `DisposeTypeUnlisted`). */
  function Entry(f: Form, t: Tyre, id: nat): History
  {
    History(id, f.date, f.operation, f.scanType, if f.vehicle != 0 then f.vehicle else t.vehicle,
            f.odometer, f.treadDepth, f.cost)
  }

  function Histories(f: Form, t: Tyre, ids: seq<nat>): (h: seq<History>)
    ensures |h| == |ids|
    ensures forall i :: 0 <= i < |h| ==> h[i] == Entry(f, t, ids[i])
  {
    seq(|ids|, i requires 0 <= i < |ids| => Entry(f, t, ids[i]))
  }

  /** The gate-check search of `_onchange_operation_type`: the other tyres mounted
      on the vehicle. */
  function OtherMounted(tyres: seq<Tyre>, vehicle: nat, tyre: nat): (ids: seq<nat>)
    ensures forall t :: t in tyres && t.vehicle == vehicle && t.id != tyre && t.state == Mounted ==> t.id in ids
    ensures forall id :: id in ids ==> id != tyre && exists t :: t in tyres && t.id == id && t.vehicle == vehicle && t.state == Mounted
    decreases |tyres|
  {
    if tyres == [] then []
    else
      var last := tyres[|tyres| - 1];
      var front := OtherMounted(tyres[..|tyres| - 1], vehicle, tyre);
      assert tyres == tyres[..|tyres| - 1] + [last];
      if last.vehicle == vehicle && last.id != tyre && last.state == Mounted then front + [last.id] else front
  }

  /** A mount passes its guards exactly when a vehicle and a position are given, no
      tyre is mounted there, and every mounted tyre on the same axle is within 3 mm
      and of the same brand. */
  lemma MountAllowedIff(f: Form, tyre: Tyre, tyres: seq<Tyre>, axleOf: nat -> int)
    ensures MountCheck(f, tyre, tyres, axleOf).None? <==>
      (f.vehicle != 0 && f.position != 0
       && (forall t :: t in tyres ==> !MountedAt(t, f.vehicle, f.position))
       && forall p :: p in tyres && OnAxle(p, f.vehicle, axleOf(f.position), axleOf) ==>
         Balanced(OrCurrent(f.treadDepth, tyre.tread), p) && SameBrand(tyre, p))
  {
  }

  /** After a mount, the position is taken: mounting any tyre at the same place of
      the same vehicle raises and names the tyre just mounted. */
  lemma MountOccupiesPosition(f: Form, tyres: seq<Tyre>, locs: Locations, axleOf: nat -> int, g: Form, other: Tyre)
    requires UniqueIds(tyres) && InTable(tyres, f.tyre)
    requires f.operation == Mount && MountCheck(f, Get(tyres, f.tyre), tyres, axleOf).None?
    requires g.vehicle == f.vehicle && g.position == f.position
    ensures MountCheck(g, other, Put(tyres, TyreId, Written(f, Get(tyres, f.tyre), locs)), axleOf) == Some(PositionOccupied(f.tyre))
  {
    var t := Get(tyres, f.tyre);
    var w := Written(f, t, locs);
    var r := Put(tyres, TyreId, w);
    var i :| 0 <= i < |tyres| && tyres[i].id == f.tyre;
    assert r[i] == w && MountedAt(w, f.vehicle, f.position);
    forall k | 0 <= k < |r| && MountedAt(r[k], f.vehicle, f.position)
      ensures r[k].id == f.tyre
    {
      assert tyres[k] in tyres;
    }
    var o := Occupant(r, f.vehicle, f.position);
    var j :| 0 <= j < |r| && r[j] == o.value;
  }

  /** After a mount the tyre is among the vehicle's mounted tyres, which the gate
      check gives a line each. */
  lemma MountGetsGateLine(f: Form, tyres: seq<Tyre>, locs: Locations)
    requires InTable(tyres, f.tyre)
    requires f.operation == Mount
    ensures Written(f, Get(tyres, f.tyre), locs) in GateCheck.MountedOn(Put(tyres, TyreId, Written(f, Get(tyres, f.tyre), locs)), f.vehicle)
  {
    var w := Written(f, Get(tyres, f.tyre), locs);
    var i :| 0 <= i < |tyres| && tyres[i].id == f.tyre;
    assert Put(tyres, TyreId, w)[i] == w;
  }

  /** After a dismount, repair, retread or disposal the tyre is on no vehicle's
      list of mounted tyres, so no gate check gives it a line. */
  lemma OffVehicleNoGateLine(f: Form, tyres: seq<Tyre>, locs: Locations, vehicle: nat)
    requires InTable(tyres, f.tyre)
    requires f.operation == Dismount || f.operation == Repair || f.operation == Retread || f.operation == Dispose
    ensures forall x :: x in GateCheck.MountedOn(Put(tyres, TyreId, Written(f, Get(tyres, f.tyre), locs)), vehicle) ==> x.id != f.tyre
  {
    var w := Written(f, Get(tyres, f.tyre), locs);
    var r := Put(tyres, TyreId, w);
    forall x | x in GateCheck.MountedOn(r, vehicle)
      ensures x.id != f.tyre
    {
      var j :| 0 <= j < |r| && r[j] == x;
      assert x != w;
      assert r[j] == tyres[j];
    }
  }

  /** Only a retread touches the retread count, and it adds exactly one. */
  lemma RetreadCountedOnce(f: Form, t: Tyre, locs: Locations)
    ensures Written(f, t, locs).retreadCount == t.retreadCount + if f.operation == Retread then 1 else 0
  {
  }

  /** The tread changes only on a dismount or an inspection, and only to a depth
      that was given (non-zero). */
  lemma TreadOnlyFromGivenDepth(f: Form, t: Tyre, locs: Locations)
    ensures Written(f, t, locs).tread != t.tread ==>
      f.operation in {Dismount, Inspection} && f.treadDepth != 0.0 && Written(f, t, locs).tread == f.treadDepth
  {
  }

  /** A gate check changes no field of the tyre, an inspection at most its tread,
      and a return to stock keeps its vehicle and position. */
  lemma LightOperations(f: Form, t: Tyre, locs: Locations)
    ensures f.operation == GateCheckOp ==> Written(f, t, locs) == t
    ensures f.operation == Inspection ==> Written(f, t, locs) == t.(tread := Written(f, t, locs).tread)
    ensures f.operation == ReturnStock ==>
      Written(f, t, locs).vehicle == t.vehicle && Written(f, t, locs).position == t.position
  {
  }

  /** Every operation that takes a tyre off its vehicle leaves it on no vehicle, at
      no position and not mounted. */
  lemma OffVehicle(f: Form, t: Tyre, locs: Locations)
    requires f.operation in {Dismount, Repair, Retread, Dispose}
    ensures var w := Written(f, t, locs); w.vehicle == 0 && w.position == 0 && w.state != Mounted
  {
  }

  /** One history per tyre processed: the tyre first, then each related tyre of a
      gate check; all of them carry the wizard's vehicle, or the tyre's when none was
      chosen. */
  lemma HistoryPerTyre(f: Form, t: Tyre)
    ensures |Histories(f, t, Processed(f))| == 1 + if f.operation == GateCheckOp then |f.related| else 0
    ensures Histories(f, t, Processed(f))[0].tyre == f.tyre
    ensures f.operation == GateCheckOp ==>
      forall i :: 0 <= i < |f.related| ==> Histories(f, t, Processed(f))[i + 1].tyre == f.related[i]
    ensures forall h :: h in Histories(f, t, Processed(f)) ==>
      h.kind == f.operation && h.vehicle == (if f.vehicle != 0 then f.vehicle else t.vehicle)
  {
    var ids := Processed(f);
    assert ids[0] == f.tyre;
    if f.operation == GateCheckOp {
      assert forall i :: 0 <= i < |f.related| ==> ids[i + 1] == f.related[i];
    }
  }

  /** The keys of the wizard's operation selection, which `action_apply` copies into
      the history's `type`. */
  function SelectionKey(op: Operation): string
  {
    match op
    case Mount => "mount"
    case Dismount => "dismount"
    case Inspection => "inspection"
    case GateCheckOp => "gate_check"
    case Repair => "repair"
    case Retread => "retread"
    case ReturnStock => "return_stock"
    case Dispose => "dispose"
  }

  /** The keys of the history's `type` selection. */
  const HistoryTypes: set<string> :=
    {"mount", "dismount", "inspection", "repair", "retread", "gate_check", "return_stock", "disposal"}

  /** As written, the history of a disposal gets the type `dispose`, which the
      history's selection does not list, so creating it fails and the disposal is
      rolled back. */
  lemma DisposeTypeUnlisted()
    ensures SelectionKey(Dispose) !in HistoryTypes
    ensures forall op :: op != Dispose ==> SelectionKey(op) in HistoryTypes
  {
    assert "dispose" != "disposal" by {
      assert |"dispose"| != |"disposal"|;
    }
  }

  /** The history type the model records: the selection key, except a disposal is
      logged as `disposal`. Every operation then has a listed type. */
  function HistoryType(op: Operation): (key: string)
    ensures key in HistoryTypes
    ensures op != Dispose ==> key == SelectionKey(op)
  {
    if op == Dispose then "disposal" else SelectionKey(op)
  }

  /** What `default_get` fills in; `None` for a key the result dict does not hold. */
  datatype Defaults = Defaults(
    tyre: Option<nat>,
    vehicle: Option<nat>,
    position: Option<nat>,
    operation: Option<Operation>,
    treadDepth: Option<real>)

  /** The context's `active_model`: a tyre, a vehicle, or anything else. */
  datatype ActiveModel = TyreModel | VehicleModel | OtherModel

  /** The context keys `default_get` reads; 0 stands for an absent key. */
  datatype Context = Context(
    defaultPosition: nat,
    defaultOperation: Option<Operation>,
    defaultTyre: nat,
    activeModel: ActiveModel,
    activeId: nat)

  /** A record read through `browse`; a missing record reads as empty. */
  function Browse(tyres: seq<Tyre>, id: nat): Option<Tyre>
  {
    if InTable(tyres, id) then Some(Get(tyres, id)) else None
  }

  /** `dict.setdefault`. */
  function SetDefault<T>(o: Option<T>, v: T): Option<T>
  {
    if o.Some? then o else Some(v)
  }

  /** `default_get`, from what the framework's own `default_get` returned. The
      explicit context keys come first; then the active tyre (its id, vehicle, and
      the operation its state suggests) or the active vehicle (with a mount when no
      operation is set); finally the tread depth of the chosen tyre. */
  function DefaultGet(base: Defaults, ctx: Context, tyres: seq<Tyre>): (res: Defaults)
    ensures ctx.defaultOperation.Some? ==> res.operation == ctx.defaultOperation
    ensures ctx.defaultTyre != 0 ==> res.tyre == Some(ctx.defaultTyre)
    ensures ctx.defaultPosition != 0 ==> res.position == Some(ctx.defaultPosition)
    ensures (ctx.activeModel == TyreModel && ctx.activeId != 0 && InTable(tyres, ctx.activeId)
             && base.operation.None? && ctx.defaultOperation.None?) ==>
      res.operation == match Get(tyres, ctx.activeId).state
        case Available => Some(Mount)
        case Mounted => Some(Dismount)
        case _ => None
    ensures ctx.activeModel == VehicleModel && ctx.activeId != 0 ==>
      res.operation.Some? && res.vehicle == SetDefault(base.vehicle, ctx.activeId)
    ensures res.tyre.Some? && res.tyre.value != 0 && (base.treadDepth.None? || base.treadDepth == Some(0.0)) ==>
      res.treadDepth == Some(TreadOf(tyres, res.tyre.value))
    ensures res.treadDepth != base.treadDepth ==> res.tyre.Some? && res.tyre.value != 0
  {
    FillTread(ActiveDefaults(ContextDefaults(base, ctx), ctx, tyres), tyres)
  }

  /** The explicit context keys, which win over what the framework returned. */
  function ContextDefaults(base: Defaults, ctx: Context): (r: Defaults)
    ensures r.vehicle == base.vehicle && r.treadDepth == base.treadDepth
    ensures ctx.defaultOperation.Some? ==> r.operation == ctx.defaultOperation
    ensures ctx.defaultOperation.None? ==> r.operation == base.operation
    ensures ctx.defaultTyre != 0 ==> r.tyre == Some(ctx.defaultTyre)
    ensures ctx.defaultPosition != 0 ==> r.position == Some(ctx.defaultPosition)
  {
    base.(
      position := if ctx.defaultPosition != 0 then Some(ctx.defaultPosition) else base.position,
      operation := if ctx.defaultOperation.Some? then ctx.defaultOperation else base.operation,
      tyre := if ctx.defaultTyre != 0 then Some(ctx.defaultTyre) else base.tyre)
  }

  /** The active record only fills keys that are still missing, except that an
      active vehicle also replaces an empty operation. */
  function ActiveDefaults(r0: Defaults, ctx: Context, tyres: seq<Tyre>): (r1: Defaults)
    ensures r1.treadDepth == r0.treadDepth && r1.position == r0.position
    ensures r0.operation.Some? ==> r1.operation == r0.operation
    ensures r0.tyre.Some? ==> r1.tyre == r0.tyre
    ensures (ctx.activeModel == TyreModel && ctx.activeId != 0 && InTable(tyres, ctx.activeId)
             && r0.operation.None?) ==>
      r1.operation == match Get(tyres, ctx.activeId).state
        case Available => Some(Mount)
        case Mounted => Some(Dismount)
        case _ => None
    ensures ctx.activeModel == VehicleModel && ctx.activeId != 0 ==>
      r1.operation.Some? && r1.vehicle == SetDefault(r0.vehicle, ctx.activeId)
  {
    if ctx.activeModel == TyreModel && ctx.activeId != 0 then
      match Browse(tyres, ctx.activeId)
      case None => r0.(tyre := SetDefault(r0.tyre, ctx.activeId))
      case Some(t) =>
        r0.(
          tyre := SetDefault(r0.tyre, t.id),
          vehicle := if t.vehicle != 0 then SetDefault(r0.vehicle, t.vehicle) else r0.vehicle,
          operation :=
            if t.state == Available then SetDefault(r0.operation, Mount)
            else if t.state == Mounted then SetDefault(r0.operation, Dismount)
            else r0.operation)
    else if ctx.activeModel == VehicleModel && ctx.activeId != 0 then
      r0.(vehicle := SetDefault(r0.vehicle, ctx.activeId),
          operation := if r0.operation.None? then Some(Mount) else r0.operation)
    else r0
  }

  /** The tread depth of the chosen tyre, when no depth (or 0) is set. */
  function FillTread(r1: Defaults, tyres: seq<Tyre>): (res: Defaults)
    ensures res.(treadDepth := r1.treadDepth) == r1
    ensures res.tyre.Some? && res.tyre.value != 0 && (r1.treadDepth.None? || r1.treadDepth == Some(0.0)) ==>
      res.treadDepth == Some(TreadOf(tyres, res.tyre.value))
    ensures res.treadDepth != r1.treadDepth ==> res.tyre.Some? && res.tyre.value != 0
  {
    if r1.tyre.Some? && r1.tyre.value != 0 && (r1.treadDepth.None? || r1.treadDepth == Some(0.0)) then
      r1.(treadDepth := Some(TreadOf(tyres, r1.tyre.value)))
    else r1
  }

  class TyreOperationWizard {
    var tyre: nat
    var operation: Operation
    var vehicle: nat
    var position: nat
    var related: seq<nat>
    var destination: nat
    var date: int
    var odometer: real
    var treadDepth: real
    var cost: real
    var vendor: nat
    var reason: string
    var scanType: Option<ScanType>

    function Fields(): Form
      reads this
    {
      Form(tyre, operation, vehicle, position, related, destination, date, odometer, treadDepth, cost,
           vendor, reason, scanType)
    }

    constructor(f: Form)
      ensures Fields() == f
    {
      tyre := f.tyre;
      operation := f.operation;
      vehicle := f.vehicle;
      position := f.position;
      related := f.related;
      destination := f.destination;
      date := f.date;
      odometer := f.odometer;
      treadDepth := f.treadDepth;
      cost := f.cost;
      vendor := f.vendor;
      reason := f.reason;
      scanType := f.scanType;
    }

    /** `_onchange_operation_type`: a gate check with a vehicle selects the other
        tyres mounted on it; anything else clears the selection. */
    method OnchangeOperationType(tyres: seq<Tyre>)
      modifies this
      ensures related == if operation == GateCheckOp && vehicle != 0 then OtherMounted(tyres, vehicle, tyre) else []
      ensures Fields() == old(Fields()).(related := related)
    {
      if operation == GateCheckOp && vehicle != 0 {
        related := OtherMounted(tyres, vehicle, tyre);
      } else {
        related := [];
      }
    }

    /** `action_apply`. On a guard's error nothing is kept; otherwise the histories
        are logged, the tyre is written and the lot move, if any, is returned. */
    method Apply(reg: Registry, locs: Locations, axleOf: nat -> int) returns (r: Result<Option<Move>, ApplyError>)
      requires UniqueIds(reg.tyres) && InTable(reg.tyres, tyre)
      modifies reg
      ensures Guard(Fields(), Get(old(reg.tyres), tyre), old(reg.tyres), axleOf).Some? ==>
        r == Err(Guard(Fields(), Get(old(reg.tyres), tyre), old(reg.tyres), axleOf).value)
        && reg.tyres == old(reg.tyres) && reg.history == old(reg.history)
      ensures Guard(Fields(), Get(old(reg.tyres), tyre), old(reg.tyres), axleOf).None? ==>
        r == Ok(StockMove(tyre, locs.lot, Destination(Fields(), locs)))
        && reg.tyres == Put(old(reg.tyres), TyreId, Written(Fields(), Get(old(reg.tyres), tyre), locs))
        && reg.history == old(reg.history) + Histories(Fields(), Get(old(reg.tyres), tyre), Processed(Fields()))
    {
      var t := Get(reg.tyres, tyre);
      var saved := reg.history;
      var toProcess := [tyre];
      if operation == GateCheckOp {
        toProcess := toProcess + related;
      }
      assert toProcess == Processed(Fields());
      for i := 0 to |toProcess|
        invariant reg.history == saved + Histories(Fields(), t, toProcess[..i])
        invariant reg.tyres == old(reg.tyres)
      {
        assert Histories(Fields(), t, toProcess[..i + 1]) == Histories(Fields(), t, toProcess[..i]) + [Entry(Fields(), t, toProcess[i])];
        reg.history := reg.history + [Entry(Fields(), t, toProcess[i])];
      }
      assert toProcess[..|toProcess|] == toProcess;

      var dest := 0;
      if operation == Mount {
        if vehicle == 0 || position == 0 {
          reg.history := saved;
          return Err(VehicleAndPositionRequired);
        }
        var existing := Occupant(reg.tyres, vehicle, position);
        if existing.Some? {
          reg.history := saved;
          return Err(PositionOccupied(existing.value.id));
        }
        var partners := Partners(reg.tyres, vehicle, axleOf(position), axleOf);
        var newTread := OrCurrent(treadDepth, t.tread);
        var e := CheckPartners(newTread, t, partners);
        if e.Some? {
          reg.history := saved;
          return Err(e.value);
        }
        dest := locs.vehicle;
        reg.tyres := Put(reg.tyres, TyreId, t.(state := Mounted, vehicle := vehicle, position := position, location := 0));
      } else if operation == Dismount {
        dest := OrStock(destination, locs);
        reg.tyres := Put(reg.tyres, TyreId, t.(state := Available, vehicle := 0, position := 0,
                                       tread := OrCurrent(treadDepth, t.tread), location := dest));
      } else if operation == GateCheckOp {
      } else if operation == Inspection {
        if treadDepth != 0.0 {
          reg.tyres := Put(reg.tyres, TyreId, t.(tread := treadDepth));
        } else {
          assert t == Written(Fields(), t, locs);
          assert Put(reg.tyres, TyreId, t) == reg.tyres;
        }
      } else if operation == Repair {
        dest := VendorLocation(Fields(), locs);
        reg.tyres := Put(reg.tyres, TyreId, t.(state := InRepair, vehicle := 0, position := 0, location := 0));
      } else if operation == Retread {
        dest := VendorLocation(Fields(), locs);
        reg.tyres := Put(reg.tyres, TyreId, t.(state := SentForRetread, vehicle := 0, position := 0, location := 0,
                                       retreadCount := t.retreadCount + 1));
      } else if operation == ReturnStock {
        dest := OrStock(destination, locs);
        reg.tyres := Put(reg.tyres, TyreId, t.(state := Available, location := dest));
      } else {
        dest := locs.scrapped;
        reg.tyres := Put(reg.tyres, TyreId, t.(state := Scrapped, vehicle := 0, position := 0, location := 0,
                                       disposalReason := reason, disposalDate := date));
      }
      if operation == GateCheckOp {
        assert Put(reg.tyres, TyreId, t) == reg.tyres;
      }
      if dest != 0 && locs.lot != 0 && locs.lot != dest {
        r := Ok(Some(Move(tyre, locs.lot, dest)));
      } else {
        r := Ok(None);
      }
    }
  }

  /** The partner loop of a mount. */
  method CheckPartners(newTread: real, tyre: Tyre, partners: seq<Tyre>) returns (e: Option<ApplyError>)
    ensures e == Conflict(newTread, tyre, partners)
  {
    for i := 0 to |partners|
      invariant Conflict(newTread, tyre, partners) == Conflict(newTread, tyre, partners[i..])
    {
      assert partners[i..][1..] == partners[i + 1..];
      var partner := partners[i];
      var diff := Abs(newTread - partner.tread);
      if diff > 3.0 {
        return Some(UnbalancedAxle(partner.id, diff));
      }
      if partner.product != 0 && tyre.product != 0 && partner.brand != tyre.brand {
        return Some(TyreMixing(partner.id));
      }
    }
    return None;
  }
}
