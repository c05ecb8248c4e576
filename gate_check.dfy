/** `fleet_gate_check.py`: a gate check records which tyres of a vehicle passed the
    gate. Choosing the vehicle picks the scan direction from the last done check and
    lists one line per mounted tyre; confirming logs one gate-check history record per
    line and writes back changed tread depths. */
module GateCheck {
  import opened Wrappers
  import opened FleetRecords

  datatype CheckState = Open | Done | Cancelled

  /** A `fleet.tyre.gate.check.line`. */
  datatype Line = Line(tyre: nat, scanned: bool, newTread: real, odometer: real)

  /** What the search for the last done check sees of an existing check. */
  datatype CheckRecord = CheckRecord(id: nat, date: int, vehicle: nat, scanType: ScanType, state: CheckState)

  /** `vals.get('name', 'New') == 'New'` decides whether the sequence names the check;
      `next_by_code(...) or 'New'` falls back when the sequence gives nothing. */
  function AssignName(name: Option<string>, next: Option<string>): (r: string)
    ensures name.Some? && name.value != "New" ==> r == name.value
    ensures (name.None? || name.value == "New") && next.Some? && next.value != [] ==> r == next.value
    ensures (name.None? || name.value == "New") && (next.None? || next.value == []) ==> r == "New"
  {
    if name.Some? && name.value != "New" then name.value
    else if next.Some? && next.value != [] then next.value
    else "New"
  }

  /** A done check of this vehicle. */
  predicate DoneFor(c: CheckRecord, vehicle: nat)
  {
    c.vehicle == vehicle && c.state == Done
  }

  /** `a` comes strictly before `b` in the order `date desc, id desc` read backwards. */
  predicate Older(a: CheckRecord, b: CheckRecord)
  {
    a.date < b.date || (a.date == b.date && a.id < b.id)
  }

  /** `search([vehicle, state done], limit=1, order='date desc, id desc')`. */
  function LastDone(checks: seq<CheckRecord>, vehicle: nat): (r: Option<CheckRecord>)
    ensures r.Some? ==> r.value in checks && DoneFor(r.value, vehicle)
    ensures r.Some? ==> forall c :: c in checks && DoneFor(c, vehicle) ==> !Older(r.value, c)
    ensures r.None? <==> forall c :: c in checks ==> !DoneFor(c, vehicle)
    decreases |checks|
  {
    if checks == [] then None
    else
      var front := checks[..|checks| - 1];
      var c := checks[|checks| - 1];
      assert checks == front + [c];
      var prev := LastDone(front, vehicle);
      if DoneFor(c, vehicle) && (prev.None? || !Older(c, prev.value)) then Some(c) else prev
  }

  /** The direction the onchange picks: out after an in, in otherwise. */
  function NextScanType(checks: seq<CheckRecord>, vehicle: nat): ScanType
  {
    var last := LastDone(checks, vehicle);
    if last.Some? && last.value.scanType == CheckIn then CheckOut else CheckIn
  }

  function Flip(t: ScanType): ScanType
  {
    if t == CheckIn then CheckOut else CheckIn
  }

  /** A vehicle that never passed a done check is checked in. */
  lemma FirstCheckIsCheckIn(checks: seq<CheckRecord>, vehicle: nat)
    requires forall c :: c in checks ==> !DoneFor(c, vehicle)
    ensures NextScanType(checks, vehicle) == CheckIn
  {
  }

  /** Directions alternate: once a check of this vehicle later than all others is
      done, the next check takes the opposite direction. */
  lemma DirectionsAlternate(checks: seq<CheckRecord>, c: CheckRecord)
    requires c.state == Done
    requires forall d :: d in checks && DoneFor(d, c.vehicle) ==> Older(d, c)
    ensures NextScanType(checks + [c], c.vehicle) == Flip(c.scanType)
  {
    var all := checks + [c];
    assert all[..|all| - 1] == checks;
    var prev := LastDone(checks, c.vehicle);
    assert prev.Some? ==> Older(prev.value, c);
  }

  /** `search([vehicle, state mounted])`: the mounted tyres of the vehicle, in table
      order. */
  function MountedOn(tyres: seq<Tyre>, vehicle: nat): (m: seq<Tyre>)
    ensures forall t :: t in m <==> t in tyres && t.vehicle == vehicle && t.state == Mounted
    decreases |tyres|
  {
    if tyres == [] then []
    else
      var front := tyres[..|tyres| - 1];
      var t := tyres[|tyres| - 1];
      assert tyres == front + [t];
      MountedOn(front, vehicle) + (if t.vehicle == vehicle && t.state == Mounted then [t] else [])
  }

  /** The lines the onchange builds from the mounted tyres: a line per tyre, not yet
      scanned, with the tyre's tread and the vehicle's odometer as defaults. */
  function LinesFor(mounted: seq<Tyre>, odometer: real): (lines: seq<Line>)
    ensures |lines| == |mounted|
    ensures forall i :: 0 <= i < |lines| ==>
      lines[i] == Line(mounted[i].id, false, mounted[i].tread, odometer)
  {
    seq(|mounted|, i requires 0 <= i < |mounted| => Line(mounted[i].id, false, mounted[i].tread, odometer))
  }

  /** How many lines name this tyre. */
  function LineCount(lines: seq<Line>, id: nat): nat
    decreases |lines|
  {
    if lines == [] then 0
    else LineCount(lines[..|lines| - 1], id) + (if lines[|lines| - 1].tyre == id then 1 else 0)
  }

  /** With unique ids, the onchange gives every tyre of the table exactly one line if
      it is mounted on the vehicle and none otherwise. */
  lemma {:induction false} OneLinePerMountedTyre(tyres: seq<Tyre>, vehicle: nat, odometer: real)
    requires UniqueIds(tyres)
    ensures forall i :: 0 <= i < |tyres| ==>
      LineCount(LinesFor(MountedOn(tyres, vehicle), odometer), tyres[i].id)
        == if tyres[i].vehicle == vehicle && tyres[i].state == Mounted then 1 else 0
    decreases |tyres|
  {
    if tyres != [] {
      var front := tyres[..|tyres| - 1];
      var t := tyres[|tyres| - 1];
      assert tyres == front + [t];
      OneLinePerMountedTyre(front, vehicle, odometer);
      var m0 := MountedOn(front, vehicle);
      var lines0 := LinesFor(m0, odometer);
      var lines := LinesFor(MountedOn(tyres, vehicle), odometer);
      var added := t.vehicle == vehicle && t.state == Mounted;
      forall k | 0 <= k < |lines0|
        ensures lines0[k].tyre != t.id
      {
        assert m0[k] in front;
        var j :| 0 <= j < |front| && front[j] == m0[k];
        assert tyres[j] == front[j];
      }
      NoLineFor(lines0, t.id);
      var l := Line(t.id, false, t.tread, odometer);
      if added {
        assert MountedOn(tyres, vehicle) == m0 + [t];
        assert lines == lines0 + [l];
      } else {
        assert MountedOn(tyres, vehicle) == m0;
      }
      forall i | 0 <= i < |tyres|
        ensures LineCount(lines, tyres[i].id) == if tyres[i].vehicle == vehicle && tyres[i].state == Mounted then 1 else 0
      {
        if added {
          LineCountSnoc(lines0, l, tyres[i].id);
        }
        if i < |front| {
          assert tyres[i] == front[i];
        }
      }
    }
  }

  lemma LineCountSnoc(lines: seq<Line>, l: Line, id: nat)
    ensures LineCount(lines + [l], id) == LineCount(lines, id) + if l.tyre == id then 1 else 0
  {
    assert (lines + [l])[..|lines|] == lines;
  }

  lemma {:induction false} NoLineFor(lines: seq<Line>, id: nat)
    requires forall k :: 0 <= k < |lines| ==> lines[k].tyre != id
    ensures LineCount(lines, id) == 0
    decreases |lines|
  {
    if lines != [] {
      NoLineFor(lines[..|lines| - 1], id);
    }
  }

  /** The history record `action_confirm` creates for one line. */
  function LineHistory(line: Line, date: int, scanType: ScanType, vehicle: nat): History
  {
    History(line.tyre, date, GateCheckOp, Some(scanType), vehicle, line.odometer, line.newTread, 0.0)
  }

  /** The history records of all lines, in line order. */
  function ConfirmHistory(lines: seq<Line>, date: int, scanType: ScanType, vehicle: nat): (h: seq<History>)
    ensures |h| == |lines|
    ensures forall i :: 0 <= i < |h| ==>
      h[i].tyre == lines[i].tyre && h[i].kind == GateCheckOp && h[i].scanType == Some(scanType)
      && h[i].odometer == lines[i].odometer && h[i].tread == lines[i].newTread && h[i].vehicle == vehicle
    decreases |lines|
  {
    if lines == [] then []
    else
      var front := lines[..|lines| - 1];
      ConfirmHistory(front, date, scanType, vehicle) + [LineHistory(lines[|lines| - 1], date, scanType, vehicle)]
  }

  /** The table after the line loop: each line writes its new depth when it differs
      from the tyre's current one. */
  function ApplyTreads(tyres: seq<Tyre>, lines: seq<Line>): seq<Tyre>
    decreases |lines|
  {
    if lines == [] then tyres
    else
      var t := ApplyTreads(tyres, lines[..|lines| - 1]);
      var line := lines[|lines| - 1];
      if line.newTread != TreadOf(t, line.tyre) then SetTread(t, line.tyre, line.newTread) else t
  }

  /** The new depth of the last line naming this tyre. */
  function LastNewTread(lines: seq<Line>, id: nat): Option<real>
    decreases |lines|
  {
    if lines == [] then None
    else if lines[|lines| - 1].tyre == id then Some(lines[|lines| - 1].newTread)
    else LastNewTread(lines[..|lines| - 1], id)
  }

  /** After confirming, a tyre of the table reads the depth of its last line, and a
      tyre without a line keeps its depth; writing only on a difference loses nothing. */
  lemma {:induction false} ConfirmTreads(tyres: seq<Tyre>, lines: seq<Line>, id: nat)
    requires InTable(tyres, id)
    ensures TreadOf(ApplyTreads(tyres, lines), id)
      == if LastNewTread(lines, id).Some? then LastNewTread(lines, id).value else TreadOf(tyres, id)
    decreases |lines|
  {
    if lines != [] {
      var front := lines[..|lines| - 1];
      var line := lines[|lines| - 1];
      var t := ApplyTreads(tyres, front);
      ConfirmTreads(tyres, front, id);
      ApplyTreadsKeepsIds(tyres, front, id);
      if line.newTread != TreadOf(t, line.tyre) {
        SetTreadReads(t, line.tyre, line.newTread, id);
      }
    }
  }

  /** The line loop changes depths only, so every record stays in the table. */
  lemma {:induction false} ApplyTreadsKeepsIds(tyres: seq<Tyre>, lines: seq<Line>, id: nat)
    requires InTable(tyres, id)
    ensures InTable(ApplyTreads(tyres, lines), id)
    decreases |lines|
  {
    if lines != [] {
      var front := lines[..|lines| - 1];
      ApplyTreadsKeepsIds(tyres, front, id);
      var t := ApplyTreads(tyres, front);
      var line := lines[|lines| - 1];
      if line.newTread != TreadOf(t, line.tyre) {
        var i :| 0 <= i < |t| && t[i].id == id;
        assert SetTread(t, line.tyre, line.newTread)[i].id == id;
      }
    }
  }

  /** A `fleet.tyre.gate.check` record. */
  class Check {
    const id: nat
    var name: string
    var date: int
    var vehicle: nat
    var scanType: ScanType
    var lines: seq<Line>
    var state: CheckState

    /** `create` with the given vehicle, direction and date, named by `AssignName`. */
    constructor(id: nat, name: Option<string>, next: Option<string>, vehicle: nat, scanType: ScanType, date: int)
      ensures this.id == id && this.name == AssignName(name, next) && this.vehicle == vehicle
      ensures this.scanType == scanType && this.date == date && lines == [] && state == Open
    {
      this.id := id;
      this.name := AssignName(name, next);
      this.vehicle := vehicle;
      this.scanType := scanType;
      this.date := date;
      lines := [];
      state := Open;
    }

    /** `_onchange_vehicle_id`, given the existing checks, the tyre table and the
        vehicle's odometer. */
    method OnchangeVehicle(checks: seq<CheckRecord>, tyres: seq<Tyre>, odometer: real)
      modifies this
      ensures old(vehicle) == 0 ==> unchanged(this)
      ensures old(vehicle) != 0 ==>
        scanType == NextScanType(checks, vehicle) && lines == LinesFor(MountedOn(tyres, vehicle), odometer)
      ensures name == old(name) && date == old(date) && vehicle == old(vehicle) && state == old(state)
    {
      if vehicle == 0 {
        return;
      }
      var last := LastDone(checks, vehicle);
      if last.Some? && last.value.scanType == CheckIn {
        scanType := CheckOut;
      } else {
        scanType := CheckIn;
      }
      lines := [];
      var mounted := MountedOn(tyres, vehicle);
      var built: seq<Line> := [];
      for i := 0 to |mounted|
        invariant built == LinesFor(mounted[..i], odometer)
      {
        built := built + [Line(mounted[i].id, false, mounted[i].tread, odometer)];
      }
      assert mounted[..|mounted|] == mounted;
      lines := built;
    }

    /** `action_confirm` on one check: a draft check logs a history record per line,
        writes changed depths and becomes done; any other check is skipped. */
    method Confirm(reg: Registry)
      modifies this, reg
      ensures old(state) != Open ==> unchanged(this) && unchanged(reg)
      ensures old(state) == Open ==>
        reg.history == old(reg.history) + ConfirmHistory(lines, date, scanType, vehicle)
        && reg.tyres == ApplyTreads(old(reg.tyres), lines) && state == Done
      ensures lines == old(lines) && scanType == old(scanType) && vehicle == old(vehicle)
    {
      if state != Open {
        return;
      }
      ghost var h0 := reg.history;
      ghost var t0 := reg.tyres;
      for i := 0 to |lines|
        invariant unchanged(this)
        invariant reg.history == h0 + ConfirmHistory(lines[..i], date, scanType, vehicle)
        invariant reg.tyres == ApplyTreads(t0, lines[..i])
      {
        assert lines[..i + 1][..i] == lines[..i];
        var line := lines[i];
        reg.history := reg.history + [History(line.tyre, date, GateCheckOp, Some(scanType), vehicle, line.odometer, line.newTread, 0.0)];
        if line.newTread != TreadOf(reg.tyres, line.tyre) {
          reg.tyres := SetTread(reg.tyres, line.tyre, line.newTread);
        }
      }
      assert lines[..|lines|] == lines;
      state := Done;
    }

    /** The line loop of the batch scan: lines whose tyre was read are set scanned. */
    method MarkScanned(found: set<nat>)
      modifies this
      ensures |lines| == |old(lines)|
      ensures forall i :: 0 <= i < |lines| ==>
        lines[i] == old(lines)[i].(scanned := old(lines)[i].scanned || old(lines)[i].tyre in found)
      ensures name == old(name) && date == old(date) && vehicle == old(vehicle) && state == old(state)
      ensures scanType == old(scanType)
    {
      var ls := lines;
      for i := 0 to |ls|
        invariant |ls| == |old(lines)|
        invariant forall k :: 0 <= k < i ==>
          ls[k] == old(lines)[k].(scanned := old(lines)[k].scanned || old(lines)[k].tyre in found)
        invariant forall k :: i <= k < |ls| ==> ls[k] == old(lines)[k]
      {
        if ls[i].tyre in found {
          ls := ls[i := ls[i].(scanned := true)];
        }
      }
      lines := ls;
    }
  }
}
