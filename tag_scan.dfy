/** `rfid_tag_scan.py`: the ERP end of the reader. A single scan is logged against the
    reader whose IP address or serial port matches the sender. A batch of EPCs
    either moves the tyres read to an inventory reader's location, or votes for the
    vehicle most of the tyres are mounted on, opens (or reuses) that vehicle's gate
    check for the day and marks the tyres read as scanned. */
module TagScan {
  import opened Wrappers
  import opened FleetRecords
  import opened GateCheck

  /** An `rfid.reader`. */
  datatype Reader = Reader(id: nat, ip: string, serialPort: string, usage: string, location: nat)

  /** An `rfid.tag.scan` log record. */
  datatype ScanLog = ScanLog(epc: string, readerIp: string, reader: nat)

  /** What `batch_rfid_scan_action` returns: `False`, the result of the mass
      inventory, or the gate check's id. */
  datatype BatchResult = Rejected | Inventoried(ok: bool) | Checked(check: nat)

  predicate Matches(r: Reader, key: string)
  {
    r.ip == key || r.serialPort == key
  }

  /** `search(['|', ('ip_address', '=', key), ('serial_port', '=', key)], limit=1)`:
      the first reader whose IP or serial port is the key. */
  function FindReader(readers: seq<Reader>, key: string): (r: Option<Reader>)
    ensures r.None? <==> forall x :: x in readers ==> !Matches(x, key)
    ensures r.Some? ==> exists i :: (0 <= i < |readers| && readers[i] == r.value && Matches(r.value, key)
      && forall j :: 0 <= j < i ==> !Matches(readers[j], key))
    decreases |readers|
  {
    if readers == [] then None
    else if Matches(readers[0], key) then Some(readers[0])
    else
      var r := FindReader(readers[1..], key);
      assert forall i :: 1 <= i < |readers| ==> readers[i] == readers[1..][i - 1];
      assert r.Some? ==> exists i :: (1 <= i < |readers| && readers[i] == r.value && Matches(r.value, key)
        && forall j :: 0 <= j < i ==> !Matches(readers[j], key));
      r
  }

  /** `reader.id if reader else False`. */
  function ReaderId(r: Option<Reader>): nat
  {
    if r.Some? then r.value.id else 0
  }

  /** The batch scan's log records: one per EPC, with the sender's address and no
      reader. */
  function BatchLogs(epcs: seq<string>, ip: string): (logs: seq<ScanLog>)
    ensures |logs| == |epcs|
    ensures forall i :: 0 <= i < |logs| ==> logs[i] == ScanLog(epcs[i], ip, 0)
  {
    seq(|epcs|, i requires 0 <= i < |epcs| => ScanLog(epcs[i], ip, 0))
  }

  /** The `rfid.tag.scan` table. */
  class ScanLogs {
    var logs: seq<ScanLog>

    constructor()
      ensures logs == []
    {
      logs := [];
    }

    /** `rfid_scan_action`: log the EPC against the matching reader, or none, and
        return the new record's id. */
    method RecordScan(readers: seq<Reader>, epc: string, ip: string) returns (id: nat)
      modifies this
      ensures logs == old(logs) + [ScanLog(epc, ip, ReaderId(FindReader(readers, ip)))]
      ensures id == |logs|
    {
      var reader := FindReader(readers, ip);
      var readerId := if reader.Some? then reader.value.id else 0;
      logs := logs + [ScanLog(epc, ip, readerId)];
      id := |logs|;
    }

    /** The `for epc in tag_epcs` logging loop of the batch scan. */
    method LogBatch(epcs: seq<string>, ip: string)
      modifies this
      ensures logs == old(logs) + BatchLogs(epcs, ip)
    {
      for i := 0 to |epcs|
        invariant logs == old(logs) + BatchLogs(epcs[..i], ip)
      {
        assert BatchLogs(epcs[..i + 1], ip) == BatchLogs(epcs[..i], ip) + [ScanLog(epcs[i], ip, 0)];
        logs := logs + [ScanLog(epcs[i], ip, 0)];
      }
      assert epcs[..|epcs|] == epcs;
    }
  }

  /** A single scan is attached to a reader exactly when some reader's IP or serial
      port is the sender's address, and then to the first such reader. */
  lemma SingleScanReader(readers: seq<Reader>, ip: string)
    ensures ReaderId(FindReader(readers, ip)) == 0 <== forall x :: x in readers ==> !Matches(x, ip)
    ensures (exists i :: 0 <= i < |readers| && Matches(readers[i], ip)) ==>
      exists i :: (0 <= i < |readers| && Matches(readers[i], ip) && ReaderId(FindReader(readers, ip)) == readers[i].id
        && forall j :: 0 <= j < i ==> !Matches(readers[j], ip))
  {
  }

  /** `search([('rfid_tag', 'in', tag_epcs)])`: the tyres whose tag was read, in table
      order; an untagged tyre never matches. */
  function Tagged(tyres: seq<Tyre>, epcs: seq<string>): (found: seq<Tyre>)
    ensures forall t :: t in found <==> t in tyres && t.rfid != [] && t.rfid in epcs
    ensures |found| <= |tyres|
    decreases |tyres|
  {
    if tyres == [] then []
    else
      var front := tyres[..|tyres| - 1];
      var t := tyres[|tyres| - 1];
      assert tyres == front + [t];
      Tagged(front, epcs) + (if t.rfid != [] && t.rfid in epcs then [t] else [])
  }

  /** The vote count of one vehicle: the tyres mounted on it. */
  function CountOn(tyres: seq<Tyre>, vehicle: nat): nat
    decreases |tyres|
  {
    if tyres == [] then 0
    else CountOn(tyres[..|tyres| - 1], vehicle) + (if tyres[|tyres| - 1].vehicle == vehicle then 1 else 0)
  }

  /** The `vehicle_counts` dictionary after the loop, with its keys in insertion
      order (which `max` follows). */
  datatype Votes = Votes(counts: map<nat, nat>, order: seq<nat>)

  function Tally(tyres: seq<Tyre>): Votes
    decreases |tyres|
  {
    if tyres == [] then Votes(map[], [])
    else
      var v := Tally(tyres[..|tyres| - 1]);
      var x := tyres[|tyres| - 1].vehicle;
      if x == 0 then v
      else if x in v.counts then Votes(v.counts[x := v.counts[x] + 1], v.order)
      else Votes(v.counts[x := 1], v.order + [x])
  }

  /** Some tyre before index `k` votes for `v`. */
  predicate VotedBefore(tyres: seq<Tyre>, k: int, v: nat)
  {
    exists k' :: 0 <= k' < k && k' < |tyres| && tyres[k'].vehicle == v
  }

  /** The dictionary holds a key per vehicle carrying a tyre, and its key list holds
      each key once. */
  lemma {:induction false} TallyKeys(tyres: seq<Tyre>)
    ensures forall x :: x in Tally(tyres).counts <==> x != 0 && VotedBefore(tyres, |tyres|, x)
    ensures forall x :: x in Tally(tyres).order <==> x in Tally(tyres).counts
    ensures forall i, j :: 0 <= i < j < |Tally(tyres).order| ==> Tally(tyres).order[i] != Tally(tyres).order[j]
    decreases |tyres|
  {
    if tyres != [] {
      var front := tyres[..|tyres| - 1];
      var x := tyres[|tyres| - 1].vehicle;
      TallyKeys(front);
      var v0 := Tally(front);
      var v := Tally(tyres);
      assert forall k :: 0 <= k < |front| ==> tyres[k] == front[k];
      forall y | y != 0
        ensures VotedBefore(tyres, |tyres|, y) <==> VotedBefore(front, |front|, y) || y == x
      {
        if VotedBefore(tyres, |tyres|, y) && y != x {
          var k :| 0 <= k < |tyres| && tyres[k].vehicle == y;
          assert front[k].vehicle == y;
        }
        if VotedBefore(front, |front|, y) {
          var k :| 0 <= k < |front| && front[k].vehicle == y;
          assert tyres[k].vehicle == y;
        }
        if y == x {
          assert tyres[|tyres| - 1].vehicle == y;
        }
      }
      if x == 0 {
        assert v == v0;
      } else if x in v0.counts {
        assert v.counts.Keys == v0.counts.Keys && v.order == v0.order;
      } else {
        assert v.counts.Keys == v0.counts.Keys + {x} && v.order == v0.order + [x];
        forall i, j | 0 <= i < j < |v.order|
          ensures v.order[i] != v.order[j]
        {
          if j == |v.order| - 1 {
            assert v.order[i] == v0.order[i];
          }
        }
      }
      forall y
        ensures y in v.counts <==> y != 0 && VotedBefore(tyres, |tyres|, y)
      {
        assert y in v.counts <==> y in v0.counts || (y == x && x != 0);
      }
    }
  }

  /** Each key counts the tyres on its vehicle. */
  lemma {:induction false} TallyCounts(tyres: seq<Tyre>)
    ensures forall x :: x in Tally(tyres).counts ==> Tally(tyres).counts[x] == CountOn(tyres, x)
    decreases |tyres|
  {
    if tyres != [] {
      var front := tyres[..|tyres| - 1];
      TallyCounts(front);
      TallyKeys(front);
      var x := tyres[|tyres| - 1].vehicle;
      if x != 0 && x !in Tally(front).counts {
        NoVotes(front, x);
      }
    }
  }

  /** Keys are listed in the order their vehicles were first met: a tyre of a later
      key comes after some tyre of every earlier key. */
  lemma {:induction false} TallyOrder(tyres: seq<Tyre>)
    ensures forall i, j, k :: (0 <= i < j < |Tally(tyres).order| && 0 <= k < |tyres|
      && tyres[k].vehicle == Tally(tyres).order[j]) ==> VotedBefore(tyres, k, Tally(tyres).order[i])
    decreases |tyres|
  {
    if tyres != [] {
      var front := tyres[..|tyres| - 1];
      var x := tyres[|tyres| - 1].vehicle;
      TallyOrder(front);
      TallyKeys(front);
      var v0 := Tally(front);
      var v := Tally(tyres);
      assert forall k :: 0 <= k < |front| ==> tyres[k] == front[k];
      forall i, j, k | 0 <= i < j < |v.order| && 0 <= k < |tyres| && tyres[k].vehicle == v.order[j]
        ensures VotedBefore(tyres, k, v.order[i])
      {
        assert v.order[..|v0.order|] == v0.order;
        assert i < |v0.order|;
        assert v0.order[i] in v0.order;
        assert VotedBefore(front, |front|, v0.order[i]);
        var k0 :| 0 <= k0 < |front| && front[k0].vehicle == v.order[i];
        if k < |front| {
          assert front[k].vehicle == v.order[j];
          assert VotedBefore(front, |front|, v.order[j]);
          assert j < |v0.order|;
          assert front[k].vehicle == v0.order[j];
          assert VotedBefore(front, k, v0.order[i]);
          var k1 :| 0 <= k1 < k && k1 < |front| && front[k1].vehicle == v.order[i];
          assert tyres[k1].vehicle == v.order[i];
        } else {
          assert tyres[k0].vehicle == v.order[i];
        }
      }
    }
  }

  /** `max(vehicle_counts, key=vehicle_counts.get)`: the first key, in insertion
      order, with the highest count. */
  function FirstMax(order: seq<nat>, counts: map<nat, nat>): (j: nat)
    requires order != []
    requires forall x :: x in order ==> x in counts
    ensures j < |order|
    ensures forall i :: 0 <= i < |order| ==> counts[order[i]] <= counts[order[j]]
    ensures forall i :: 0 <= i < j ==> counts[order[i]] < counts[order[j]]
    decreases |order|
  {
    if |order| == 1 then 0
    else
      var front := order[..|order| - 1];
      assert forall i :: 0 <= i < |front| ==> front[i] == order[i];
      var b := FirstMax(front, counts);
      var last := |order| - 1;
      if counts[order[last]] > counts[order[b]] then last else b
  }

  /** The vote's winner, or `None` when no tyre is on a vehicle. */
  function Winner(found: seq<Tyre>): Option<nat>
  {
    var v := Tally(found);
    if v.order == [] then None
    else
      TallyKeys(found);
      Some(v.order[FirstMax(v.order, v.counts)])
  }

  /** Only tyres on a vehicle vote; there is a winner iff one does; the winner has
      at least as many tyres as any vehicle, and of the vehicles tied with it, a tyre
      of the winner comes first. */
  lemma WinnerExists(found: seq<Tyre>)
    ensures Winner(found).None? <==> forall t :: t in found ==> t.vehicle == 0
    ensures Winner(found).Some? ==> Winner(found).value != 0 && VotedBefore(found, |found|, Winner(found).value)
  {
    TallyKeys(found);
    var v := Tally(found);
    if v.order == [] {
      forall t | t in found
        ensures t.vehicle == 0
      {
        var k :| 0 <= k < |found| && found[k] == t;
        if t.vehicle != 0 {
          assert VotedBefore(found, |found|, t.vehicle);
        }
      }
    } else {
      assert v.order[FirstMax(v.order, v.counts)] in v.order;
    }
  }

  /** The winner has at least as many tyres as any vehicle. */
  lemma WinnerHasMostVotes(found: seq<Tyre>)
    requires Winner(found).Some?
    ensures forall x :: x != 0 ==> CountOn(found, x) <= CountOn(found, Winner(found).value)
  {
    TallyKeys(found);
    TallyCounts(found);
    var v := Tally(found);
    var jw := FirstMax(v.order, v.counts);
    var w := v.order[jw];
    assert w in v.order;
    forall x | x != 0
      ensures CountOn(found, x) <= CountOn(found, w)
    {
      if x !in v.counts {
        NoVotes(found, x);
      } else {
        var jx :| 0 <= jx < |v.order| && v.order[jx] == x;
      }
    }
  }

  /** Of the vehicles tied with the winner, a tyre of the winner comes first: a tyre
      of any other vehicle with as many votes has a tyre of the winner before it. */
  lemma WinnerFirstAmongTied(found: seq<Tyre>, x: nat, k: nat)
    requires Winner(found).Some?
    requires x != 0 && x != Winner(found).value && CountOn(found, x) == CountOn(found, Winner(found).value)
    requires k < |found| && found[k].vehicle == x
    ensures VotedBefore(found, k, Winner(found).value)
  {
    TallyKeys(found);
    TallyCounts(found);
    TallyOrder(found);
    var v := Tally(found);
    var jw := FirstMax(v.order, v.counts);
    var w := v.order[jw];
    assert w in v.order;
    assert VotedBefore(found, |found|, x);
    var jx :| 0 <= jx < |v.order| && v.order[jx] == x;
    assert jw < jx;
  }

  lemma {:induction false} NoVotes(tyres: seq<Tyre>, x: nat)
    requires !VotedBefore(tyres, |tyres|, x)
    ensures CountOn(tyres, x) == 0
    decreases |tyres|
  {
    if tyres != [] {
      var front := tyres[..|tyres| - 1];
      assert forall k :: 0 <= k < |front| ==> front[k] == tyres[k];
      NoVotes(front, x);
    }
  }

  /** The voting loop and `max`. */
  method Vote(found: seq<Tyre>) returns (best: Option<nat>)
    ensures best == Winner(found)
  {
    var counts: map<nat, nat> := map[];
    var order: seq<nat> := [];
    for i := 0 to |found|
      invariant Votes(counts, order) == Tally(found[..i])
    {
      assert found[..i + 1][..i] == found[..i];
      var x := found[i].vehicle;
      if x != 0 {
        if x in counts {
          counts := counts[x := counts[x] + 1];
        } else {
          counts := counts[x := 1];
          order := order + [x];
        }
      }
    }
    assert found[..|found|] == found;
    if order == [] {
      return None;
    }
    TallyKeys(found);
    best := Some(order[FirstMax(order, counts)]);
  }

  /** Where a moved tyre comes from: its location, or the main stock location. */
  function Source(t: Tyre, stock: nat): nat
  {
    if t.location != 0 then t.location else stock
  }

  /** The moves `_process_mass_inventory` creates: one per tyre read that is not
      already at the destination. */
  function InventoryMoves(found: seq<Tyre>, dest: nat, stock: nat): (moves: seq<Move>)
    ensures forall m :: m in moves <==> exists t :: t in found && t.location != dest && m == Move(t.id, Source(t, stock), dest)
    decreases |found|
  {
    if found == [] then []
    else
      var front := found[..|found| - 1];
      var t := found[|found| - 1];
      assert found == front + [t];
      InventoryMoves(front, dest, stock) + (if t.location == dest then [] else [Move(t.id, Source(t, stock), dest)])
  }

  /** The ids of the tyres read that are not at the destination yet. */
  function Moving(found: seq<Tyre>, dest: nat): (ids: set<nat>)
    ensures forall id :: id in ids <==> exists t :: t in found && t.location != dest && t.id == id
    decreases |found|
  {
    if found == [] then {}
    else
      var front := found[..|found| - 1];
      var t := found[|found| - 1];
      assert found == front + [t];
      Moving(front, dest) + (if t.location == dest then {} else {t.id})
  }

  /** The table with every record whose id is listed set to the destination. */
  function Relocate(tyres: seq<Tyre>, ids: set<nat>, dest: nat): (r: seq<Tyre>)
    ensures |r| == |tyres|
    ensures forall i :: 0 <= i < |r| ==> r[i] == if tyres[i].id in ids then tyres[i].(location := dest) else tyres[i]
  {
    seq(|tyres|, i requires 0 <= i < |tyres| => if tyres[i].id in ids then tyres[i].(location := dest) else tyres[i])
  }

  /** Mass inventory: every tyre read ends at the destination, a tyre not read is
      untouched, and a move is recorded exactly for the tyres that were elsewhere. */
  lemma EveryTyreReadEndsAtTarget(tyres: seq<Tyre>, found: seq<Tyre>, dest: nat)
    requires UniqueIds(tyres)
    requires forall t :: t in found ==> t in tyres
    ensures var r := Relocate(tyres, Moving(found, dest), dest);
      forall i :: 0 <= i < |r| ==>
        (tyres[i] in found ==> r[i].location == dest)
        && ((forall t :: t in found ==> t.id != tyres[i].id) ==> r[i] == tyres[i])
  {
    var r := Relocate(tyres, Moving(found, dest), dest);
    forall i | 0 <= i < |r| && tyres[i] in found
      ensures r[i].location == dest
    {
    }
  }

  /** `_process_mass_inventory`: no destination means `False` and no change; otherwise
      the loop moves each tyre read that is elsewhere and the result is `True`. */
  method MassInventory(reg: Registry, found: seq<Tyre>, dest: nat, stock: nat) returns (ok: bool, moves: seq<Move>)
    modifies reg
    ensures dest == 0 ==> !ok && moves == [] && unchanged(reg)
    ensures dest != 0 ==> (ok && moves == InventoryMoves(found, dest, stock)
      && reg.tyres == Relocate(old(reg.tyres), Moving(found, dest), dest) && reg.history == old(reg.history))
  {
    if dest == 0 {
      return false, [];
    }
    moves := [];
    ghost var t0 := reg.tyres;
    for i := 0 to |found|
      invariant moves == InventoryMoves(found[..i], dest, stock)
      invariant reg.tyres == Relocate(t0, Moving(found[..i], dest), dest) && reg.history == old(reg.history)
    {
      assert found[..i + 1][..i] == found[..i];
      var t := found[i];
      if t.location == dest {
        continue;
      }
      var source := if t.location != 0 then t.location else stock;
      moves := moves + [Move(t.id, source, dest)];
      reg.tyres := Relocate(reg.tyres, {t.id}, dest);
      assert Relocate(Relocate(t0, Moving(found[..i], dest), dest), {t.id}, dest)
        == Relocate(t0, Moving(found[..i + 1], dest), dest);
    }
    assert found[..|found|] == found;
    ok := true;
  }

  /** The gate check a batch works on for the vehicle, as the batch found or made
      it. */
  predicate TodaysDraft(c: Check, vehicle: nat, today: int)
    reads c
  {
    c.vehicle == vehicle && c.state == Open && c.date == today
  }

  /** The gate-check branch after the vote: reuse today's draft check of the winner or
      create one and run its onchange, then mark the lines of the tyres read. */
  method OpenCheck(tyres: seq<Tyre>, found: seq<Tyre>, winner: nat, drafts: map<nat, Check>, today: int,
                   newId: nat, next: Option<string>, past: seq<CheckRecord>, odometer: real)
    returns (check: Check)
    requires winner != 0
    requires forall v :: v in drafts ==> TodaysDraft(drafts[v], v, today)
    modifies drafts.Values
    ensures winner in drafts ==> (check == drafts[winner]
      && check.lines == Marked(old(drafts[winner].lines), IdsOf(found)))
    ensures winner !in drafts ==> (fresh(check) && check.id == newId && check.vehicle == winner
      && check.date == today && check.state == Open
      && check.scanType == NextScanType(past, winner)
      && check.lines == Marked(LinesFor(MountedOn(tyres, winner), odometer), IdsOf(found)))
    ensures TodaysDraft(check, winner, today)
    ensures forall v :: v in drafts && drafts[v] != check ==> unchanged(drafts[v])
  {
    if winner in drafts {
      check := drafts[winner];
    } else {
      check := new Check(newId, None, next, winner, CheckIn, today);
      check.OnchangeVehicle(past, tyres, odometer);
    }
    check.MarkScanned(IdsOf(found));
  }

  function IdsOf(found: seq<Tyre>): (ids: set<nat>)
    ensures forall id :: id in ids <==> exists t :: t in found && t.id == id
  {
    set t | t in found :: t.id
  }

  /** The lines after marking: a line is scanned iff it was or its tyre was read;
      nothing else about a line changes. */
  function Marked(lines: seq<Line>, ids: set<nat>): (r: seq<Line>)
    ensures |r| == |lines|
    ensures forall i :: 0 <= i < |r| ==> (r[i].scanned == (lines[i].scanned || lines[i].tyre in ids)
      && r[i].tyre == lines[i].tyre && r[i].newTread == lines[i].newTread && r[i].odometer == lines[i].odometer)
  {
    seq(|lines|, i requires 0 <= i < |lines| => lines[i].(scanned := lines[i].scanned || lines[i].tyre in ids))
  }

  /** The lines of each draft check, by vehicle. */
  function DraftLines(drafts: map<nat, Check>): (r: map<nat, seq<Line>>)
    reads drafts.Values
    ensures r.Keys == drafts.Keys
    ensures forall v :: v in r ==> r[v] == drafts[v].lines
  {
    map v | v in drafts :: drafts[v].lines
  }

  /** What the gate-check branch leaves in the winner's check: today's draft, either
      the one the search found with its earlier lines, or a new check with the
      onchange's direction and one line per mounted tyre at the vehicle's odometer
      (0 when unknown); in both cases the lines of the tyres read are marked. */
  ghost predicate CheckOpened(check: Check, tyres: seq<Tyre>, found: seq<Tyre>, winner: nat,
                              drafts: map<nat, Check>, lines: map<nat, seq<Line>>, today: int, newId: nat,
                              past: seq<CheckRecord>, odometers: map<nat, real>)
    reads check
  {
    && TodaysDraft(check, winner, today)
    && (winner in drafts && winner in lines ==>
          check == drafts[winner] && check.lines == Marked(lines[winner], IdsOf(found)))
    && (winner !in drafts ==>
          check.id == newId && check.scanType == NextScanType(past, winner)
          && check.lines == Marked(LinesFor(MountedOn(tyres, winner),
                                            if winner in odometers then odometers[winner] else 0.0), IdsOf(found)))
  }

  /** The gate-check branch of the batch scan, from the vote to the logging: no
      vote means `False` and nothing written; otherwise the winner's check is opened
      and marked and one log record is written per EPC. */
  method GateBranch(tyres: seq<Tyre>, logs: ScanLogs, found: seq<Tyre>, epcs: seq<string>, ip: string,
                    drafts: map<nat, Check>, today: int, newId: nat, next: Option<string>,
                    past: seq<CheckRecord>, odometers: map<nat, real>)
    returns (r: BatchResult, check: Check?)
    requires forall v :: v in drafts ==> TodaysDraft(drafts[v], v, today)
    modifies logs, drafts.Values
    ensures Winner(found).None? ==> r == Rejected && check == null && unchanged(logs)
    ensures Winner(found).Some? ==> (check != null && check.vehicle == Winner(found).value
      && r == Checked(check.id) && logs.logs == old(logs.logs) + BatchLogs(epcs, ip))
    ensures Winner(found).Some? ==> check != null && CheckOpened(check, tyres, found, Winner(found).value,
      drafts, old(DraftLines(drafts)), today, newId, past, odometers) && fresh(check) == (Winner(found).value !in drafts)
    ensures forall v :: v in drafts && drafts[v] != check ==> unchanged(drafts[v])
  {
    var winner := Vote(found);
    if winner == None {
      return Rejected, null;
    }
    WinnerExists(found);
    var v := winner.value;
    var odometer := if v in odometers then odometers[v] else 0.0;
    var c := OpenCheck(tyres, found, v, drafts, today, newId, next, past, odometer);
    logs.LogBatch(epcs, ip);
    r, check := Checked(c.id), c;
  }

  /** `batch_rfid_scan_action`. The reader table, the tyre table, today's draft checks
      by vehicle, the existing checks, the odometers and the main stock location
      are the searches' results; the new check's id and sequence name are given. */
  method BatchScan(reg: Registry, logs: ScanLogs, readers: seq<Reader>, epcs: seq<string>, ip: string,
                   drafts: map<nat, Check>, today: int, newId: nat, next: Option<string>,
                   past: seq<CheckRecord>, odometers: map<nat, real>, stock: nat)
    returns (r: BatchResult, moves: seq<Move>, check: Check?)
    requires forall v :: v in drafts ==> TodaysDraft(drafts[v], v, today)
    modifies reg, logs, drafts.Values
    ensures epcs == [] || Tagged(old(reg.tyres), epcs) == [] ==>
      (r == Rejected && moves == [] && unchanged(reg) && unchanged(logs))
    ensures Inventory(readers, ip) && epcs != [] && Tagged(old(reg.tyres), epcs) != [] ==>
      (var dest := FindReader(readers, ip).value.location;
       var found := Tagged(old(reg.tyres), epcs);
       r == Inventoried(dest != 0) && moves == (if dest != 0 then InventoryMoves(found, dest, stock) else [])
       && (dest != 0 ==> reg.tyres == Relocate(old(reg.tyres), Moving(found, dest), dest))
       && unchanged(logs) && check == null)
    ensures !Inventory(readers, ip) && epcs != [] && Tagged(old(reg.tyres), epcs) != [] ==>
      (var found := Tagged(old(reg.tyres), epcs);
       moves == [] && unchanged(reg)
       && (Winner(found).None? ==> r == Rejected && unchanged(logs))
       && (Winner(found).Some? ==> (check != null && check.vehicle == Winner(found).value && r == Checked(check.id)
             && logs.logs == old(logs.logs) + BatchLogs(epcs, ip)
             && CheckOpened(check, old(reg.tyres), found, Winner(found).value, drafts, old(DraftLines(drafts)),
                            today, newId, past, odometers)
             && fresh(check) == (Winner(found).value !in drafts))))
    ensures forall v :: v in drafts && drafts[v] != check ==> unchanged(drafts[v])
  {
    moves := [];
    check := null;
    if epcs == [] {
      return Rejected, moves, check;
    }
    var found := Tagged(reg.tyres, epcs);
    if found == [] {
      return Rejected, moves, check;
    }
    var reader := FindReader(readers, ip);
    if reader.Some? && reader.value.usage == "inventory" {
      var ok;
      ok, moves := MassInventory(reg, found, reader.value.location, stock);
      return Inventoried(ok), moves, check;
    }
    r, check := GateBranch(reg.tyres, logs, found, epcs, ip, drafts, today, newId, next, past, odometers);
  }

  /** The sender is a reader in inventory mode. */
  predicate Inventory(readers: seq<Reader>, ip: string)
  {
    var reader := FindReader(readers, ip);
    reader.Some? && reader.value.usage == "inventory"
  }
}
