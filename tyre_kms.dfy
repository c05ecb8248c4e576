/** `fleet_tyre.py`: a tyre's kilometres are summed from its history in date order. A
    mount sets the baseline odometer; a dismount or gate check while mounted adds
    the positive distance since the baseline and moves the baseline up; a dismount
    also ends the mounting. The cost per km divides the purchase price plus the
    history's costs by those kilometres. */
module TyreKms {
  import opened Wrappers
  import opened FleetRecords
  import Sorting

  /** A history record with its id, which breaks ties between records of one date. */
  datatype Logged = Logged(id: nat, entry: History)

  /** `a` sorts no later than `b` under the key `(date, id)`. */
  predicate NotAfter(a: Logged, b: Logged)
  {
    a.entry.date < b.entry.date || (a.entry.date == b.entry.date && a.id <= b.id)
  }

  lemma NotAfterIsPreorder()
    ensures Sorting.TotalPreorder(NotAfter)
  {
  }

  /** `history_ids.sorted(lambda r: (r.date, r.id))`. */
  function SortByDate(s: seq<Logged>): (r: seq<Logged>)
    ensures Sorting.Ascending(r, NotAfter)
    ensures multiset(r) == multiset(s)
  {
    NotAfterIsPreorder();
    Sorting.Sort(s, NotAfter)
  }

  /** The loop variables `kms`, `last_mount_odo` and `is_mounted`. */
  datatype Meter = Meter(kms: real, baseline: real, mounted: bool)

  /** One iteration of the loop. */
  function Step(m: Meter, h: History): Meter
  {
    if h.kind == Mount then Meter(m.kms, h.odometer, true)
    else if (h.kind == Dismount || h.kind == GateCheckOp) && m.mounted then
      var diff := h.odometer - m.baseline;
      Meter(if diff > 0.0 then m.kms + diff else m.kms, h.odometer, h.kind != Dismount)
    else m
  }

  /** The loop over a chronological history. */
  function Run(s: seq<Logged>): Meter
    decreases |s|
  {
    if s == [] then Meter(0.0, 0.0, false)
    else Step(Run(s[..|s| - 1]), s[|s| - 1].entry)
  }

  /** `total_kms` of a history. */
  function TotalKms(history: seq<Logged>): real
  {
    Run(SortByDate(history)).kms
  }

  /** No step loses kilometres, and a step adds at most the positive distance
      since the baseline. */
  lemma StepAdds(m: Meter, h: History)
    ensures m.kms <= Step(m, h).kms
    ensures Step(m, h).kms - m.kms == if Step(m, h).kms != m.kms then h.odometer - m.baseline else 0.0
  {
  }

  /** Only positive differences are added, so the total never goes below zero. */
  lemma {:induction false} KmsNonNegative(s: seq<Logged>)
    ensures Run(s).kms >= 0.0
    decreases |s|
  {
    if s != [] {
      KmsNonNegative(s[..|s| - 1]);
      StepAdds(Run(s[..|s| - 1]), s[|s| - 1].entry);
    }
  }

  /** A dismount or gate check of a tyre that is not mounted changes nothing. */
  lemma UnmountedReadingIgnored(m: Meter, h: History)
    requires !m.mounted && (h.kind == Dismount || h.kind == GateCheckOp)
    ensures Step(m, h) == m
  {
  }

  /** A mount always resets the baseline, even on a mounted tyre, and adds nothing. */
  lemma MountResets(m: Meter, h: History)
    requires h.kind == Mount
    ensures Step(m, h) == Meter(m.kms, h.odometer, true)
  {
  }

  /** Gate checks re-baseline without losing distance: on a mounted tyre, readings
      that never go down add exactly the distance from the baseline to the last
      reading. */
  lemma {:induction false} GateChecksTelescope(m: Meter, readings: seq<History>)
    requires m.mounted
    requires forall i :: 0 <= i < |readings| ==> readings[i].kind == GateCheckOp
    requires forall i :: 0 <= i < |readings| ==> m.baseline <= readings[i].odometer
    requires forall i, j :: 0 <= i < j < |readings| ==> readings[i].odometer <= readings[j].odometer
    ensures var r := Steps(m, readings);
      r.mounted && r.kms == m.kms + (if readings == [] then 0.0 else readings[|readings| - 1].odometer - m.baseline)
      && r.baseline == if readings == [] then m.baseline else readings[|readings| - 1].odometer
    decreases |readings|
  {
    if readings != [] {
      var front := readings[..|readings| - 1];
      GateChecksTelescope(m, front);
    }
  }

  /** The steps of a list of readings from a given meter. */
  function Steps(m: Meter, readings: seq<History>): Meter
    decreases |readings|
  {
    if readings == [] then m else Step(Steps(m, readings[..|readings| - 1]), readings[|readings| - 1])
  }

  /** The lifecycle of the tests: mounted at 1000, gate check at 1500, dismounted at
      2000, in that order, gives 1000 km. */
  lemma MountGateDismount(h: seq<Logged>)
    requires |h| == 3 && NotAfter(h[0], h[1]) && NotAfter(h[1], h[2])
    requires h[0].entry.kind == Mount && h[0].entry.odometer == 1000.0
    requires h[1].entry.kind == GateCheckOp && h[1].entry.odometer == 1500.0
    requires h[2].entry.kind == Dismount && h[2].entry.odometer == 2000.0
    ensures TotalKms(h) == 1000.0
  {
    assert NotAfter(h[0], h[2]);
    TotalOfOrdered(h);
    assert h == [h[0], h[1], h[2]];
    RunOfThree(h[0], h[1], h[2]);
  }

  /** The total of a history already in (date, id) order is the loop over it as it
      stands: the sort is stable. */
  lemma TotalOfOrdered(h: seq<Logged>)
    requires Sorting.Ascending(h, NotAfter)
    ensures TotalKms(h) == Run(h).kms
  {
    NotAfterIsPreorder();
    Sorting.AscendingPairs(h, NotAfter);
    Sorting.SortKeepsAscending(h, NotAfter);
  }

  lemma RunOfThree(a: Logged, b: Logged, c: Logged)
    ensures Run([a, b, c]) == Step(Step(Step(Meter(0.0, 0.0, false), a.entry), b.entry), c.entry)
  {
    assert [a, b, c][..2] == [a, b] && [a, b][..1] == [a] && [a][..0] == [];
    assert Run([a]) == Step(Meter(0.0, 0.0, false), a.entry);
    assert Run([a, b]) == Step(Run([a]), b.entry);
  }

  /** `_compute_cpk`: purchase price plus every history cost, over the kilometres;
      0 when there are none. */
  function Cpk(price: real, history: seq<Logged>, totalKms: real): (cpk: real)
    ensures totalKms > 0.0 ==> cpk * totalKms == price + CostSum(history)
    ensures totalKms <= 0.0 ==> cpk == 0.0
  {
    if totalKms > 0.0 then (price + CostSum(history)) / totalKms else 0.0
  }

  /** `sum(history_ids.mapped('cost'))`. */
  function CostSum(history: seq<Logged>): real
    decreases |history|
  {
    if history == [] then 0.0 else CostSum(history[..|history| - 1]) + history[|history| - 1].entry.cost
  }

  /** The stored fields of a tyre that the two computes assign. */
  class TyreMeter {
    var totalKms: real
    var cpk: real

    constructor()
      ensures totalKms == 0.0 && cpk == 0.0
    {
      totalKms := 0.0;
      cpk := 0.0;
    }

    /** `_compute_total_kms` for one tyre. */
    method ComputeTotalKms(history: seq<Logged>)
      modifies this
      ensures totalKms == TotalKms(history) && totalKms >= 0.0
      ensures cpk == old(cpk)
    {
      var sorted := SortByDate(history);
      var kms := 0.0;
      var lastMountOdo := 0.0;
      var isMounted := false;
      for i := 0 to |sorted|
        invariant Meter(kms, lastMountOdo, isMounted) == Run(sorted[..i])
      {
        assert sorted[..i + 1][..i] == sorted[..i];
        var record := sorted[i].entry;
        if record.kind == Mount {
          lastMountOdo := record.odometer;
          isMounted := true;
        } else if (record.kind == Dismount || record.kind == GateCheckOp) && isMounted {
          var diff := record.odometer - lastMountOdo;
          if diff > 0.0 {
            kms := kms + diff;
          }
          lastMountOdo := record.odometer;
          if record.kind == Dismount {
            isMounted := false;
          }
        }
      }
      assert sorted[..|sorted|] == sorted;
      KmsNonNegative(sorted);
      totalKms := kms;
    }

    /** `_compute_cpk` for one tyre, from its product's standard price. */
    method ComputeCpk(price: real, history: seq<Logged>)
      modifies this
      ensures cpk == Cpk(price, history, totalKms)
      ensures totalKms == old(totalKms)
    {
      var serviceCosts := 0.0;
      for i := 0 to |history|
        invariant serviceCosts == CostSum(history[..i])
      {
        assert history[..i + 1][..i] == history[..i];
        serviceCosts := serviceCosts + history[i].entry.cost;
      }
      assert history[..|history|] == history;
      var totalCost := price + serviceCosts;
      if totalKms > 0.0 {
        cpk := totalCost / totalKms;
      } else {
        cpk := 0.0;
      }
    }
  }

  /** The cost-per-km test: 100 over 1000 km is 0.1, and a repair of 20 makes it
      0.12. */
  lemma CpkExamples(a: Logged, b: Logged, c: Logged)
    requires a.entry.cost == 0.0 && b.entry.cost == 0.0 && c.entry.cost == 20.0
    ensures Cpk(100.0, [a, b], 1000.0) == 0.1
    ensures Cpk(100.0, [a, b, c], 1000.0) == 0.12
  {
    assert [a, b][..1] == [a] && [a][..0] == [];
    assert [a, b, c][..2] == [a, b];
    assert CostSum([a]) == 0.0;
    assert CostSum([a, b]) == 0.0;
    assert CostSum([a, b, c]) == 20.0;
  }
}
