/** The tyre records shared by the gate check, the batch scan and the tyre operation
    wizard (`fleet.vehicle.tyre` and `fleet.vehicle.tyre.history`). A many-to-one
    field holds the id of the record it points to, and 0 stands for an empty field
    (`False`), as record ids start at 1. Floats are `real`, dates day numbers. */
module FleetRecords {
  import opened Wrappers

  datatype TyreState = Draft | Available | Mounted | InRepair | SentForRetread | Scrapped

  datatype Tyre = Tyre(
    id: nat,
    rfid: string,
    state: TyreState,
    vehicle: nat,
    position: nat,
    location: nat,
    tread: real,
    retreadCount: int,
    product: nat,
    // The brand of `product` (the source reads `product_id.tyre_brand_id`); the
    // product table is not modelled, so the record carries the brand directly.
    brand: nat,
    disposalReason: string,
    disposalDate: int)

  datatype ScanType = CheckIn | CheckOut

  /** The operation a history record logs (the `type` selection). */
  datatype Operation = Mount | Dismount | Inspection | GateCheckOp | Repair | Retread | ReturnStock | Dispose

  datatype History = History(
    tyre: nat,
    date: int,
    kind: Operation,
    scanType: Option<ScanType>,
    vehicle: nat,
    odometer: real,
    tread: real,
    cost: real)

  /** A stock move of one tyre between two locations. */
  datatype Move = Move(tyre: nat, source: nat, destination: nat)

  /** Record ids are unique in a table. */
  predicate UniqueIds(tyres: seq<Tyre>)
  {
    forall i, j :: 0 <= i < j < |tyres| ==> tyres[i].id != tyres[j].id
  }

  /** The table holds a record with this id. */
  predicate InTable(tyres: seq<Tyre>, id: nat)
  {
    exists i :: 0 <= i < |tyres| && tyres[i].id == id
  }

  /** The current tread depth of the record with this id (`line.current_tread_depth`,
      a related field), 0.0 when there is none. */
  function TreadOf(tyres: seq<Tyre>, id: nat): (d: real)
    ensures InTable(tyres, id) ==> exists i :: 0 <= i < |tyres| && tyres[i].id == id && d == tyres[i].tread
    ensures UniqueIds(tyres) ==> forall i :: 0 <= i < |tyres| && tyres[i].id == id ==> d == tyres[i].tread
    decreases |tyres|
  {
    if tyres == [] then 0.0
    else if tyres[0].id == id then tyres[0].tread
    else
      var d := TreadOf(tyres[1..], id);
      assert forall i :: 1 <= i < |tyres| ==> tyres[i] == tyres[1..][i - 1];
      d
  }

  /** `tyre.write({'current_tread_depth': d})` on the record with this id. */
  function SetTread(tyres: seq<Tyre>, id: nat, d: real): (r: seq<Tyre>)
    ensures |r| == |tyres|
    ensures forall i :: 0 <= i < |r| ==> r[i] == if tyres[i].id == id then tyres[i].(tread := d) else tyres[i]
  {
    seq(|tyres|, i requires 0 <= i < |tyres| => if tyres[i].id == id then tyres[i].(tread := d) else tyres[i])
  }

  /** After the write the record reads back the new depth, and every other record
      reads back what it had. */
  lemma SetTreadReads(tyres: seq<Tyre>, id: nat, d: real, other: nat)
    ensures InTable(tyres, id) ==> TreadOf(SetTread(tyres, id, d), id) == d
    ensures other != id ==> TreadOf(SetTread(tyres, id, d), other) == TreadOf(tyres, other)
  {
    var r := SetTread(tyres, id, d);
    if InTable(tyres, id) {
      SetTreadFirst(tyres, id, d);
    }
    if other != id {
      SetTreadElsewhere(tyres, id, d, other);
    }
  }

  lemma {:induction false} SetTreadFirst(tyres: seq<Tyre>, id: nat, d: real)
    requires InTable(tyres, id)
    ensures TreadOf(SetTread(tyres, id, d), id) == d
    decreases |tyres|
  {
    var r := SetTread(tyres, id, d);
    if tyres[0].id != id {
      var i :| 0 <= i < |tyres| && tyres[i].id == id;
      assert tyres[1..][i - 1].id == id;
      SetTreadFirst(tyres[1..], id, d);
      assert r[1..] == SetTread(tyres[1..], id, d);
    }
  }

  lemma {:induction false} SetTreadElsewhere(tyres: seq<Tyre>, id: nat, d: real, other: nat)
    requires other != id
    ensures TreadOf(SetTread(tyres, id, d), other) == TreadOf(tyres, other)
    decreases |tyres|
  {
    if tyres != [] {
      var r := SetTread(tyres, id, d);
      SetTreadElsewhere(tyres[1..], id, d, other);
      assert r[1..] == SetTread(tyres[1..], id, d);
    }
  }

  /** The record with this id (`browse(id)`), the first one if the table had two. */
  function Get(tyres: seq<Tyre>, id: nat): (t: Tyre)
    requires InTable(tyres, id)
    ensures t in tyres && t.id == id
    ensures UniqueIds(tyres) ==> forall i :: 0 <= i < |tyres| && tyres[i].id == id ==> tyres[i] == t
    decreases |tyres|
  {
    if tyres[0].id == id then tyres[0]
    else
      assert forall i :: 1 <= i < |tyres| ==> tyres[i] == tyres[1..][i - 1];
      Get(tyres[1..], id)
  }

  /** The id of a tyre record. */
  function TyreId(t: Tyre): nat
  {
    t.id
  }

  /** `record.write(vals)` on a table whose records carry an id: the record with the
      id of `t` becomes `t`. Both tyre addons write their records this way. */
  function Put<R>(rows: seq<R>, id: R -> nat, t: R): (r: seq<R>)
    ensures |r| == |rows|
    ensures forall i :: 0 <= i < |r| ==> r[i] == if id(rows[i]) == id(t) then t else rows[i]
  {
    seq(|rows|, i requires 0 <= i < |rows| => if id(rows[i]) == id(t) then t else rows[i])
  }

  /** A write keeps the ids of the table, reads back the written record, and leaves
      every other record as it was. */
  lemma PutReads(tyres: seq<Tyre>, t: Tyre, other: nat)
    requires UniqueIds(tyres) && InTable(tyres, t.id)
    ensures UniqueIds(Put(tyres, TyreId, t))
    ensures InTable(Put(tyres, TyreId, t), t.id) && Get(Put(tyres, TyreId, t), t.id) == t
    ensures InTable(tyres, other) ==> InTable(Put(tyres, TyreId, t), other)
    ensures InTable(tyres, other) && other != t.id ==> Get(Put(tyres, TyreId, t), other) == Get(tyres, other)
  {
    var r := Put(tyres, TyreId, t);
    var i :| 0 <= i < |tyres| && tyres[i].id == t.id;
    assert r[i] == t;
    if InTable(tyres, other) {
      var j :| 0 <= j < |tyres| && tyres[j].id == other;
      assert r[j].id == other;
      if other != t.id {
        assert r[j] == tyres[j];
      }
    }
  }

  /** The tyre table and the history log, both written in place by the operations
      that work on tyres. */
  class Registry {
    var tyres: seq<Tyre>
    var history: seq<History>

    constructor(tyres: seq<Tyre>)
      ensures this.tyres == tyres && history == []
    {
      this.tyres := tyres;
      history := [];
    }
  }
}
