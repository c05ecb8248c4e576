/** `keyboard_wedge.py`: each EPC the reader reports is typed as keystrokes unless it
    was typed less than 2.0 s before (by the table `seen_tags` of last-typed times),
    and after each poll entries 60 s old or older are dropped from the table. Clock
    readings are inputs; the keyboard is the list of EPCs typed. */
module KeyboardWedge {
  import opened Wrappers
  import opened Transport

  const Debounce: real := 2.0
  const Retention: real := 60.0

  /** `seen_tags.get(epc, 0)`. */
  function LastSeen(seen: map<string, real>, epc: string): real
  {
    if epc in seen then seen[epc] else 0.0
  }

  /** `current_time - last_seen > 2.0`: the EPC may be typed. */
  predicate Fresh(seen: map<string, real>, epc: string, now: real)
  {
    now - LastSeen(seen, epc) > Debounce
  }

  /** The `for tag in tags` loop at time `now`: the table it leaves and the EPCs it
      types, in order. The table is updated inside the loop. */
  function Scan(seen: map<string, real>, epcs: seq<string>, now: real): (map<string, real>, seq<string>)
    decreases |epcs|
  {
    if epcs == [] then (seen, [])
    else
      var r := Scan(seen, epcs[..|epcs| - 1], now);
      var e := epcs[|epcs| - 1];
      if Fresh(r.0, e, now) then (r.0[e := now], r.1 + [e]) else r
  }

  /** What one poll types and records: an EPC is typed iff it was reported and was
      fresh before the poll; a typed EPC's time becomes `now` and every other keeps
      its time, so a suppressed read does not refresh it; nothing is typed twice
      within a poll. */
  lemma {:induction false} ScanTypes(seen: map<string, real>, epcs: seq<string>, now: real)
    ensures var r := Scan(seen, epcs, now);
      (forall e :: e in r.1 <==> e in epcs && Fresh(seen, e, now))
      && (forall e :: LastSeen(r.0, e) == if e in r.1 then now else LastSeen(seen, e))
      && r.0.Keys == seen.Keys + (set e | e in r.1)
      && (forall i, j :: 0 <= i < j < |r.1| ==> r.1[i] != r.1[j])
    decreases |epcs|
  {
    if epcs != [] {
      var front := epcs[..|epcs| - 1];
      ScanTypes(seen, front, now);
      var r := Scan(seen, front, now);
      var e := epcs[|epcs| - 1];
      assert epcs == front + [e];
      if Fresh(r.0, e, now) {
        assert e !in r.1;
        var out := r.1 + [e];
        forall i, j | 0 <= i < j < |out|
          ensures out[i] != out[j]
        {
          if j == |out| - 1 {
            assert out[i] == r.1[i] && out[j] == e;
          } else {
            assert out[i] == r.1[i] && out[j] == r.1[j];
          }
        }
      }
    }
  }

  /** The dictionary comprehension `{k: v for k, v in seen_tags.items() if
      current_time - v < 60}`. */
  function Purge(seen: map<string, real>, now: real): (kept: map<string, real>)
    ensures kept.Keys <= seen.Keys
    ensures forall k :: k in seen ==> (k in kept <==> now - seen[k] < Retention)
    ensures forall k :: k in kept ==> kept[k] == seen[k]
  {
    map k | k in seen && now - seen[k] < Retention :: seen[k]
  }

  /** Purging never changes a later decision: with non-negative clock readings that
      do not run backwards, an EPC is fresh after the purge iff it was before. */
  lemma PurgeInvisible(seen: map<string, real>, now: real, later: real, epc: string)
    requires forall k :: k in seen ==> seen[k] >= 0.0
    requires now <= later
    ensures Fresh(Purge(seen, now), epc, later) <==> Fresh(seen, epc, later)
  {
    if epc in seen && epc !in Purge(seen, now) {
      assert now - seen[epc] >= Retention;
    }
  }

  /** The poll loop: the table `seen_tags` and the keystrokes typed so far. */
  class Wedge {
    var seen: map<string, real>
    var typed: seq<string>

    constructor()
      ensures seen == map[] && typed == []
    {
      seen := map[];
      typed := [];
    }

    /** One iteration of `while True`: type the fresh EPCs, then purge. */
    method PollOnce(epcs: seq<string>, now: real)
      modifies this
      ensures var r := Scan(old(seen), epcs, now);
        seen == Purge(r.0, now) && typed == old(typed) + r.1
    {
      ghost var start := seen;
      ghost var before := typed;
      for i := 0 to |epcs|
        invariant var r := Scan(start, epcs[..i], now);
          seen == r.0 && typed == before + r.1
      {
        assert epcs[..i + 1][..i] == epcs[..i];
        var epc := epcs[i];
        var lastSeen := if epc in seen then seen[epc] else 0.0;
        if now - lastSeen > 2.0 {
          typed := typed + [epc];
          seen := seen[epc := now];
        }
      }
      assert epcs[..|epcs|] == epcs;
      seen := map k | k in seen && now - seen[k] < 60.0 :: seen[k];
    }
  }

  /** One poll of the reader: the EPCs it reported and the clock after it. */
  datatype Poll = Poll(epcs: seq<string>, now: real)

  /** The keystrokes of a run of polls from table `seen`. */
  function Typed(seen: map<string, real>, polls: seq<Poll>): seq<string>
    decreases |polls|
  {
    if polls == [] then []
    else
      var r := Scan(seen, polls[0].epcs, polls[0].now);
      r.1 + Typed(Purge(r.0, polls[0].now), polls[1..])
  }

  /** `main` after argument parsing: with neither `--serial` nor `--ip` it returns
      at once and types nothing; otherwise it types what the polls debounce to. Ctrl-C
      and any other exception end the loop alike. */
  method Start(serial: Option<string>, ip: Option<string>, port: Option<int>, polls: seq<Poll>)
    returns (mode: Option<Mode>, typed: seq<string>)
    ensures mode == SelectTransport(serial, ip, port)
    ensures mode == None ==> typed == []
    ensures mode.Some? ==> typed == Typed(map[], polls)
  {
    mode := SelectTransport(serial, ip, port);
    if mode == None {
      return mode, [];
    }
    var wedge := new Wedge();
    var i := 0;
    while i < |polls|
      invariant i <= |polls|
      invariant wedge.typed + Typed(wedge.seen, polls[i..]) == Typed(map[], polls)
    {
      ghost var seenBefore := wedge.seen;
      ghost var typedBefore := wedge.typed;
      wedge.PollOnce(polls[i].epcs, polls[i].now);
      assert polls[i..][1..] == polls[i + 1..];
      ghost var r := Scan(seenBefore, polls[i].epcs, polls[i].now);
      assert Typed(seenBefore, polls[i..]) == r.1 + Typed(wedge.seen, polls[i + 1..]);
      assert typedBefore + (r.1 + Typed(wedge.seen, polls[i + 1..]))
        == (typedBefore + r.1) + Typed(wedge.seen, polls[i + 1..]);
      i := i + 1;
    }
    assert wedge.typed + [] == wedge.typed;
    typed := wedge.typed;
  }
}
