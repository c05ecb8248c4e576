/** `fleet_tire/wizards/tire_operation_wizard.py`: the simpler tire wizard of the
    `fleet_tire` addon. Its record has a position selection instead of a position
    record, no retread counter and no lot moves; only a mount is guarded, and one
    history is logged after the write. */
module TireWizard {
  import opened Wrappers
  import opened FleetRecords
  import TyreWizard

  /** The `position` selection. */
  datatype Slot = FrontLeft | FrontRight | RearLeft | RearRight | Spare | OtherSlot

  /** `fleet.vehicle.tire`, with the fields the wizard reads or writes. */
  datatype Tire = Tire(
    id: nat,
    state: TyreState,
    vehicle: nat,
    position: Option<Slot>,
    location: nat,
    tread: real)

  /** The wizard offers every operation but the gate check. */
  type TireOperation = op: Operation | op != GateCheckOp witness Mount

  /** `fleet.vehicle.tire.history`. */
  datatype TireHistory = TireHistory(
    tire: nat,
    date: int,
    kind: Operation,
    vehicle: nat,
    odometer: real,
    tread: real)

  /** The wizard's fields. */
  datatype TireForm = TireForm(
    tire: nat,
    operation: TireOperation,
    vehicle: nat,
    position: Option<Slot>,
    destination: nat,
    date: int,
    odometer: real,
    treadDepth: real)

  datatype TireError = VehicleAndPositionRequired

  predicate UniqueTireIds(tires: seq<Tire>)
  {
    forall i, j :: 0 <= i < j < |tires| ==> tires[i].id != tires[j].id
  }

  predicate InTires(tires: seq<Tire>, id: nat)
  {
    exists i :: 0 <= i < |tires| && tires[i].id == id
  }

  /** `browse(id)` on the tire table. */
  function GetTire(tires: seq<Tire>, id: nat): (t: Tire)
    requires InTires(tires, id)
    ensures t in tires && t.id == id
    ensures UniqueTireIds(tires) ==> forall i :: 0 <= i < |tires| && tires[i].id == id ==> tires[i] == t
    decreases |tires|
  {
    if tires[0].id == id then tires[0]
    else
      assert forall i :: 1 <= i < |tires| ==> tires[i] == tires[1..][i - 1];
      GetTire(tires[1..], id)
  }

  /** The id of a tire record. */
  function TireId(t: Tire): nat
  {
    t.id
  }

  /** The record after the operation's `tire.write`. */
  function WrittenTire(f: TireForm, t: Tire): Tire
  {
    match f.operation
    case Mount => t.(state := Mounted, vehicle := f.vehicle, position := f.position, location := 0)
    case Dismount =>
      t.(state := Available, vehicle := 0, position := None,
         tread := TyreWizard.OrCurrent(f.treadDepth, t.tread), location := f.destination)
    case Inspection => if f.treadDepth != 0.0 then t.(tread := f.treadDepth) else t
    case Repair => t.(state := InRepair, vehicle := 0, position := None, location := 0)
    case Retread => t.(state := SentForRetread, vehicle := 0, position := None, location := 0)
    case ReturnStock => t.(state := Available, location := f.destination)
    case Dispose => t.(state := Scrapped, vehicle := 0, position := None, location := 0)
  }

  /** `history_vals`. The record keeps the operation, whose selection key is
      `TireHistoryType` (see `UnlistedTireTypes`). */
  function TireEntry(f: TireForm, t: Tire): TireHistory
  {
    TireHistory(f.tire, f.date, f.operation, if f.vehicle != 0 then f.vehicle else t.vehicle, f.odometer, f.treadDepth)
  }

  /** The tire's state after any successful operation is the one its operation names,
      except that an inspection keeps the state it had. */
  lemma TireStateByOperation(f: TireForm, t: Tire)
    ensures WrittenTire(f, t).state == match f.operation
      case Mount => Mounted
      case Dismount => Available
      case ReturnStock => Available
      case Repair => InRepair
      case Retread => SentForRetread
      case Dispose => Scrapped
      case _ => t.state
  {
  }

  /** Repair, retread and disposal take the tire off its vehicle and out of its
      location; a return to stock leaves vehicle and position as they were; a
      dismount without a destination leaves the tire with no location. */
  lemma TireFieldsByOperation(f: TireForm, t: Tire)
    ensures f.operation == Repair || f.operation == Retread || f.operation == Dispose ==>
      var w := WrittenTire(f, t); w.vehicle == 0 && w.position.None? && w.location == 0
    ensures f.operation == ReturnStock ==>
      WrittenTire(f, t) == t.(state := Available, location := f.destination)
    ensures f.operation == Dismount ==>
      WrittenTire(f, t).location == f.destination && WrittenTire(f, t).position.None?
    ensures WrittenTire(f, t).id == t.id
  {
  }

  /** The keys of the tire history's `type` selection. */
  const TireHistoryTypes: set<string> := {"mount", "dismount", "inspection", "repair", "retread", "disposal"}

  /** As written, `action_apply` copies the operation key into the history's `type`.
      Two of the wizard's operations have no such key, so their history cannot be
      created and the write before it is rolled back. */
  lemma UnlistedTireTypes()
    ensures TyreWizard.SelectionKey(ReturnStock) !in TireHistoryTypes
    ensures TyreWizard.SelectionKey(Dispose) !in TireHistoryTypes
    ensures forall op: TireOperation :: op != ReturnStock && op != Dispose ==> TyreWizard.SelectionKey(op) in TireHistoryTypes
  {
    assert |"dispose"| != |"disposal"|;
  }

  /** The history types the model records: the `disposal` key for a disposal and a
      `return_stock` key added to the selection, as the tyre history of
      `fleet_tyre_management` has. Every operation then has a listed type. */
  function TireHistoryType(op: TireOperation): (key: string)
    ensures key in TireHistoryTypes + {"return_stock"}
    ensures op != Dispose ==> key == TyreWizard.SelectionKey(op)
  {
    TyreWizard.HistoryType(op)
  }

  /** What `default_get` fills in from the active tire. */
  datatype TireDefaults = TireDefaults(tire: Option<nat>, vehicle: Option<nat>, operation: Option<TireOperation>)

  /** `default_get`: any `active_id` is read as a tire, whatever the active model;
      its id, vehicle and state-dependent operation overwrite what was there. */
  function TireDefaultGet(base: TireDefaults, activeId: nat, tires: seq<Tire>): (res: TireDefaults)
    ensures activeId == 0 ==> res == base
    ensures activeId != 0 ==> res.tire == Some(activeId)
    ensures activeId != 0 && InTires(tires, activeId) ==>
      res.operation == match GetTire(tires, activeId).state
        case Available => Some(Mount)
        case Mounted => Some(Dismount)
        case _ => base.operation
    ensures activeId != 0 && InTires(tires, activeId) ==>
      res.vehicle == if GetTire(tires, activeId).vehicle != 0 then Some(GetTire(tires, activeId).vehicle) else base.vehicle
  {
    if activeId == 0 then base
    else if !InTires(tires, activeId) then base.(tire := Some(activeId))
    else
      var t := GetTire(tires, activeId);
      base.(
        tire := Some(t.id),
        vehicle := if t.vehicle != 0 then Some(t.vehicle) else base.vehicle,
        operation :=
          if t.state == Available then Some(Mount)
          else if t.state == Mounted then Some(Dismount)
          else base.operation)
  }

  /** The tire table and its history log. */
  class TireRegistry {
    var tires: seq<Tire>
    var history: seq<TireHistory>

    constructor(tires: seq<Tire>)
      ensures this.tires == tires && history == []
    {
      this.tires := tires;
      history := [];
    }
  }

  class TireOperationWizard {
    var tire: nat
    var operation: TireOperation
    var vehicle: nat
    var position: Option<Slot>
    var destination: nat
    var date: int
    var odometer: real
    var treadDepth: real

    function Fields(): TireForm
      reads this
    {
      TireForm(tire, operation, vehicle, position, destination, date, odometer, treadDepth)
    }

    constructor(f: TireForm)
      ensures Fields() == f
    {
      tire := f.tire;
      operation := f.operation;
      vehicle := f.vehicle;
      position := f.position;
      destination := f.destination;
      date := f.date;
      odometer := f.odometer;
      treadDepth := f.treadDepth;
    }

    /** `action_apply`: a mount without vehicle or position raises and changes
        nothing; every other call writes the tire and logs exactly one history. */
    method Apply(reg: TireRegistry) returns (r: Result<(), TireError>)
      requires UniqueTireIds(reg.tires) && InTires(reg.tires, tire)
      modifies reg
      ensures operation == Mount && (vehicle == 0 || position.None?) ==>
        r == Err(VehicleAndPositionRequired) && reg.tires == old(reg.tires) && reg.history == old(reg.history)
      ensures !(operation == Mount && (vehicle == 0 || position.None?)) ==>
        r == Ok(())
        && reg.tires == Put(old(reg.tires), TireId, WrittenTire(Fields(), GetTire(old(reg.tires), tire)))
        && reg.history == old(reg.history) + [TireEntry(Fields(), GetTire(old(reg.tires), tire))]
    {
      var t := GetTire(reg.tires, tire);
      var entry := TireEntry(Fields(), t);
      if operation == Mount {
        if vehicle == 0 || position.None? {
          return Err(VehicleAndPositionRequired);
        }
        reg.tires := Put(reg.tires, TireId, t.(state := Mounted, vehicle := vehicle, position := position, location := 0));
      } else if operation == Dismount {
        reg.tires := Put(reg.tires, TireId, t.(state := Available, vehicle := 0, position := None,
                                           tread := TyreWizard.OrCurrent(treadDepth, t.tread), location := destination));
      } else if operation == Inspection {
        if treadDepth != 0.0 {
          reg.tires := Put(reg.tires, TireId, t.(tread := treadDepth));
        } else {
          assert Put(reg.tires, TireId, t) == reg.tires;
        }
      } else if operation == Repair {
        reg.tires := Put(reg.tires, TireId, t.(state := InRepair, vehicle := 0, position := None, location := 0));
      } else if operation == Retread {
        reg.tires := Put(reg.tires, TireId, t.(state := SentForRetread, vehicle := 0, position := None, location := 0));
      } else if operation == ReturnStock {
        reg.tires := Put(reg.tires, TireId, t.(state := Available, location := destination));
      } else {
        reg.tires := Put(reg.tires, TireId, t.(state := Scrapped, vehicle := 0, position := None, location := 0));
      }
      reg.history := reg.history + [entry];
      r := Ok(());
    }
  }

  /** A successful apply writes back a tire with the same id, which the table then
      holds: the write reads back as the record the operation names. */
  lemma TireWriteReadsBack(tires: seq<Tire>, f: TireForm)
    requires InTires(tires, f.tire)
    ensures InTires(Put(tires, TireId, WrittenTire(f, GetTire(tires, f.tire))), f.tire)
    ensures GetTire(Put(tires, TireId, WrittenTire(f, GetTire(tires, f.tire))), f.tire) == WrittenTire(f, GetTire(tires, f.tire))
  {
    var w := WrittenTire(f, GetTire(tires, f.tire));
    var r := Put(tires, TireId, w);
    var i :| 0 <= i < |tires| && tires[i].id == f.tire;
    assert r[i] == w;
    PutTireFirst(tires, w);
  }

  lemma {:induction false} PutTireFirst(tires: seq<Tire>, w: Tire)
    requires InTires(tires, w.id)
    ensures InTires(Put(tires, TireId, w), w.id) && GetTire(Put(tires, TireId, w), w.id) == w
    decreases |tires|
  {
    var r := Put(tires, TireId, w);
    assert r[0] == if tires[0].id == w.id then w else tires[0];
    if tires[0].id != w.id {
      var i :| 0 <= i < |tires| && tires[i].id == w.id;
      assert tires[1..][i - 1].id == w.id;
      PutTireFirst(tires[1..], w);
      assert r[1..] == Put(tires[1..], TireId, w);
    }
  }
}
