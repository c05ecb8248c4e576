/** `middleware.py`: every EPC the reader reports goes into a set buffer, and the
    buffer is pushed to the ERP as one batch once more than 1.0 s has passed since the
    last poll that reported a tag. The reader's polls are given as a finite list of
    (EPCs, clock reading) pairs; the XML-RPC server is a log of the calls made. */
module Middleware {
  import opened Wrappers
  import opened Transport

  /** One `batch_rfid_scan_action` call: the EPC set and the reader's address. */
  datatype Call = Call(epcs: set<string>, readerIp: string)

  /** `OdooConnector`: `uid` and `models` as the connection leaves them, and the
      remote calls made so far. A `uid` of 0 stands for Python's falsy `None`/`False`. */
  class Connector {
    var uid: int
    var proxied: bool
    var calls: seq<Call>

    constructor()
      ensures uid == 0 && !proxied && calls == []
    {
      uid := 0;
      proxied := false;
      calls := [];
    }

    /** Authenticated: both `self.models` and `self.uid` are truthy. */
    predicate Ready()
      reads this
    {
      proxied && uid != 0
    }

    /** `connect`: with no URL nothing happens (mock mode); otherwise the answer of
        `authenticate` is stored, and the object proxy is made only for a truthy uid.
        `None` stands for an exception from the server, which is logged. */
    method Connect(url: string, answer: Option<int>)
      modifies this
      ensures url == [] || answer == None ==> uid == old(uid) && proxied == old(proxied)
      ensures url != [] && answer.Some? ==> uid == answer.value && proxied == (old(proxied) || answer.value != 0)
      ensures calls == old(calls)
    {
      if url == [] {
        return;
      }
      if answer.Some? {
        uid := answer.value;
        if uid != 0 {
          proxied := true;
        }
      }
    }

    /** `push_batch`: an empty collection makes no call, and nothing is sent
        without an authenticated connection. A failing remote call is logged, so the
        call counts as made. */
    method PushBatch(epcs: set<string>, readerIp: string)
      modifies this
      ensures calls == old(calls) + Pushed(old(Ready()), epcs, readerIp)
      ensures uid == old(uid) && proxied == old(proxied)
    {
      if epcs == {} {
        return;
      }
      if proxied && uid != 0 {
        calls := calls + [Call(epcs, readerIp)];
      }
    }
  }

  /** The calls one `push_batch` makes. */
  function Pushed(ready: bool, epcs: set<string>, readerIp: string): (c: seq<Call>)
    ensures |c| <= 1
    ensures c != [] <==> ready && epcs != {}
    ensures c != [] ==> c[0] == Call(epcs, readerIp)
  {
    if ready && epcs != {} then [Call(epcs, readerIp)] else []
  }

  /** The loop's two variables: the set buffer and the time of the last poll that
      reported a tag. */
  datatype State = State(buffer: set<string>, last: real)

  /** The state after the `for tag in tags` loop of one poll at time `now`. */
  function Gather(s: State, epcs: seq<string>, now: real): (t: State)
    ensures t.buffer == s.buffer + (set e | e in epcs)
    ensures t.last == if epcs == [] then s.last else now
  {
    if epcs == [] then s
    else
      var u := Gather(s, epcs[..|epcs| - 1], now);
      State(u.buffer + {epcs[|epcs| - 1]}, now)
  }

  /** The flush test: a non-empty buffer and more than 1.0 s since the last tag. */
  predicate Due(s: State, now: real)
  {
    s.buffer != {} && now - s.last > 1.0
  }

  /** One iteration of `while True`: the state it leaves and the batch it flushes. */
  function Iterate(s: State, epcs: seq<string>, now: real): (State, Option<set<string>>)
  {
    var t := Gather(s, epcs, now);
    if Due(t, now) then (State({}, t.last), Some(t.buffer)) else (t, None)
  }

  /** Tags from the current poll are never flushed in that same iteration: a poll
      that reports a tag sets the last-tag time to its own time. */
  lemma FreshTagsStay(s: State, epcs: seq<string>, now: real)
    requires epcs != []
    ensures Iterate(s, epcs, now) == (Gather(s, epcs, now), None)
    ensures forall e :: e in epcs ==> e in Iterate(s, epcs, now).0.buffer
  {
  }

  /** A flush happens only after a poll with no tags, empties the buffer, and pushes
      exactly the EPCs gathered since the previous flush. */
  lemma FlushOnlyWhenIdle(s: State, epcs: seq<string>, now: real)
    requires Iterate(s, epcs, now).1.Some?
    ensures epcs == [] && s.buffer != {} && now - s.last > 1.0
    ensures Iterate(s, epcs, now).1.value == s.buffer && Iterate(s, epcs, now).0.buffer == {}
  {
  }

  /** One poll of the reader: the EPCs it reported and the clock after it. */
  datatype Poll = Poll(epcs: seq<string>, now: real)

  /** The batches flushed over a run of polls, and the state they leave. */
  function Run(s: State, polls: seq<Poll>): (seq<set<string>>, State)
    decreases |polls|
  {
    if polls == [] then ([], s)
    else
      var step := Iterate(s, polls[0].epcs, polls[0].now);
      var rest := Run(step.0, polls[1..]);
      (if step.1.Some? then [step.1.value] + rest.0 else rest.0, rest.1)
  }

  /** Every EPC of a list of polls. */
  function Seen(polls: seq<Poll>): set<string>
    decreases |polls|
  {
    if polls == [] then {} else (set e | e in polls[0].epcs) + Seen(polls[1..])
  }

  /** The union of a list of batches. */
  function Union(batches: seq<set<string>>): set<string>
    decreases |batches|
  {
    if batches == [] then {} else batches[0] + Union(batches[1..])
  }

  /** Nothing is lost and nothing invented: what the run flushed plus what is still
      buffered is exactly what was buffered before plus every EPC the polls saw. */
  lemma {:induction false} RunConserves(s: State, polls: seq<Poll>)
    ensures Union(Run(s, polls).0) + Run(s, polls).1.buffer == s.buffer + Seen(polls)
    decreases |polls|
  {
    if polls != [] {
      var step := Iterate(s, polls[0].epcs, polls[0].now);
      RunConserves(step.0, polls[1..]);
    }
  }

  /** Every batch a run flushes is non-empty. */
  lemma {:induction false} BatchesNonEmpty(s: State, polls: seq<Poll>)
    ensures forall k :: 0 <= k < |Run(s, polls).0| ==> Run(s, polls).0[k] != {}
    decreases |polls|
  {
    if polls != [] {
      var step := Iterate(s, polls[0].epcs, polls[0].now);
      BatchesNonEmpty(step.0, polls[1..]);
    }
  }

  /** How `while True` ends after the polls: Ctrl-C, or any other exception. */
  datatype Ending = Interrupted | Crashed

  /** The batches pushed in a whole session from an empty buffer and last-tag time 0:
      the run's flushes, then, after a crash only, the leftover buffer. */
  function Session(polls: seq<Poll>, ending: Ending): seq<set<string>>
  {
    var r := Run(State({}, 0.0), polls);
    r.0 + if ending == Crashed && r.1.buffer != {} then [r.1.buffer] else []
  }

  /** After a crash every EPC seen is pushed; after Ctrl-C the last buffer is lost. */
  lemma CrashPushesEverything(polls: seq<Poll>)
    ensures Union(Session(polls, Crashed)) == Seen(polls)
    ensures Union(Session(polls, Interrupted)) + Run(State({}, 0.0), polls).1.buffer == Seen(polls)
  {
    var r := Run(State({}, 0.0), polls);
    RunConserves(State({}, 0.0), polls);
    UnionAppend(r.0, if r.1.buffer != {} then [r.1.buffer] else []);
    assert Union([r.1.buffer]) == r.1.buffer;
    assert Session(polls, Interrupted) == r.0 + [];
    assert r.0 + [] == r.0;
  }

  lemma {:induction false} UnionAppend(a: seq<set<string>>, b: seq<set<string>>)
    ensures Union(a + b) == Union(a) + Union(b)
    decreases |a|
  {
    if a != [] {
      assert (a + b)[0] == a[0];
      assert (a + b)[1..] == a[1..] + b;
      UnionAppend(a[1..], b);
    } else {
      assert a + b == b;
    }
  }

  /** The remote calls made for a list of batches by a connector that is, or is not,
      authenticated. */
  function CallsOf(ready: bool, batches: seq<set<string>>, readerIp: string): seq<Call>
    decreases |batches|
  {
    if batches == [] then [] else Pushed(ready, batches[0], readerIp) + CallsOf(ready, batches[1..], readerIp)
  }

  /** The loop of `main` with its two variables, and the connector it pushes to. */
  class Buffer {
    var buffer: set<string>
    var lastTagTime: real
    const odoo: Connector
    const target: string

    constructor(odoo: Connector, target: string)
      ensures buffer == {} && lastTagTime == 0.0 && this.odoo == odoo && this.target == target
    {
      buffer := {};
      lastTagTime := 0.0;
      this.odoo := odoo;
      this.target := target;
    }

    /** One iteration of `while True`: buffer the poll's EPCs, then flush when due. */
    method Poll(epcs: seq<string>, now: real)
      modifies this, odoo
      ensures var it := Iterate(State(old(buffer), old(lastTagTime)), epcs, now);
        State(buffer, lastTagTime) == it.0
        && odoo.calls == old(odoo.calls) + (if it.1.Some? then Pushed(old(odoo.Ready()), it.1.value, target) else [])
      ensures odoo.uid == old(odoo.uid) && odoo.proxied == old(odoo.proxied)
    {
      ghost var start := State(buffer, lastTagTime);
      for i := 0 to |epcs|
        invariant State(buffer, lastTagTime) == Gather(start, epcs[..i], now)
        invariant odoo.calls == old(odoo.calls) && odoo.uid == old(odoo.uid) && odoo.proxied == old(odoo.proxied)
      {
        assert epcs[..i + 1][..i] == epcs[..i];
        buffer := buffer + {epcs[i]};
        lastTagTime := now;
      }
      assert epcs[..|epcs|] == epcs;
      if buffer != {} && now - lastTagTime > 1.0 {
        odoo.PushBatch(buffer, target);
        buffer := {};
      }
    }

    /** The polls one after the other. */
    method RunPolls(polls: seq<Poll>)
      modifies this, odoo
      ensures var r := Run(State(old(buffer), old(lastTagTime)), polls);
        State(buffer, lastTagTime) == r.1 && odoo.calls == old(odoo.calls) + CallsOf(old(odoo.Ready()), r.0, target)
      ensures odoo.uid == old(odoo.uid) && odoo.proxied == old(odoo.proxied)
    {
      ghost var ready := odoo.Ready();
      ghost var start := State(buffer, lastTagTime);
      var i := 0;
      while i < |polls|
        invariant i <= |polls|
        invariant odoo.uid == old(odoo.uid) && odoo.proxied == old(odoo.proxied)
        invariant Run(start, polls).1 == Run(State(buffer, lastTagTime), polls[i..]).1
        invariant old(odoo.calls) + CallsOf(ready, Run(start, polls).0, target)
          == odoo.calls + CallsOf(ready, Run(State(buffer, lastTagTime), polls[i..]).0, target)
      {
        ghost var before := State(buffer, lastTagTime);
        ghost var callsBefore := odoo.calls;
        Poll(polls[i].epcs, polls[i].now);
        RunStep(before, polls[i..], ready, target);
        assert polls[i..][1..] == polls[i + 1..];
        CallsRegroup(callsBefore, Iterate(before, polls[i].epcs, polls[i].now), Run(State(buffer, lastTagTime), polls[i + 1..]).0, ready, target);
        i := i + 1;
      }
      assert odoo.calls + CallsOf(ready, Run(State(buffer, lastTagTime), polls[i..]).0, target) == odoo.calls + [];
    }
  }

  /** The calls of a run: those of its first iteration, then those of the rest. */
  lemma RunStep(s: State, polls: seq<Poll>, ready: bool, readerIp: string)
    requires polls != []
    ensures var step := Iterate(s, polls[0].epcs, polls[0].now);
      Run(s, polls).1 == Run(step.0, polls[1..]).1
      && CallsOf(ready, Run(s, polls).0, readerIp)
         == (if step.1.Some? then Pushed(ready, step.1.value, readerIp) else []) + CallsOf(ready, Run(step.0, polls[1..]).0, readerIp)
  {
    var step := Iterate(s, polls[0].epcs, polls[0].now);
    if step.1.Some? {
      var rest := Run(step.0, polls[1..]).0;
      assert ([step.1.value] + rest)[1..] == rest;
    }
  }

  lemma CallsRegroup(before: seq<Call>, step: (State, Option<set<string>>), rest: seq<set<string>>, ready: bool, readerIp: string)
    ensures var now := if step.1.Some? then Pushed(ready, step.1.value, readerIp) else [];
      before + (now + CallsOf(ready, rest, readerIp)) == (before + now) + CallsOf(ready, rest, readerIp)
  {
  }

  /** `main` after argument parsing: connect to the ERP, run the polls, and on a crash
      push a non-empty buffer once more before exiting. With neither `--serial` nor
      `--ip` it returns at once and nothing is pushed. */
  method Start(serial: Option<string>, ip: Option<string>, port: Option<int>, url: string, answer: Option<int>,
              polls: seq<Poll>, ending: Ending)
    returns (mode: Option<Mode>, calls: seq<Call>)
    ensures mode == SelectTransport(serial, ip, port)
    ensures mode == None ==> calls == []
    ensures mode.Some? ==> calls == CallsOf(url != [] && answer.Some? && answer.value != 0, Session(polls, ending), mode.value.target)
  {
    mode := SelectTransport(serial, ip, port);
    if mode == None {
      return mode, [];
    }
    var odoo := new Connector();
    odoo.Connect(url, answer);
    var loop := new Buffer(odoo, mode.value.target);
    loop.RunPolls(polls);
    if ending == Crashed && loop.buffer != {} {
      odoo.PushBatch(loop.buffer, mode.value.target);
    }
    calls := odoo.calls;
    ghost var r := Run(State({}, 0.0), polls);
    ghost var tail := if ending == Crashed && r.1.buffer != {} then [r.1.buffer] else [];
    CallsAppend(odoo.Ready(), r.0, tail, mode.value.target);
  }

  lemma {:induction false} CallsAppend(ready: bool, a: seq<set<string>>, b: seq<set<string>>, readerIp: string)
    ensures CallsOf(ready, a + b, readerIp) == CallsOf(ready, a, readerIp) + CallsOf(ready, b, readerIp)
    decreases |a|
  {
    if a != [] {
      assert (a + b)[0] == a[0];
      assert (a + b)[1..] == a[1..] + b;
      CallsAppend(ready, a[1..], b, readerIp);
      var p := Pushed(ready, a[0], readerIp);
      assert p + (CallsOf(ready, a[1..], readerIp) + CallsOf(ready, b, readerIp))
        == (p + CallsOf(ready, a[1..], readerIp)) + CallsOf(ready, b, readerIp);
    } else {
      assert a + b == b;
    }
  }
}
