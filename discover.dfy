/** The control-line discovery of `discover_reader.py`: the five-byte A0 probe with its
    two's-complement checksum, the success test of one attempt, and the order in which
    the DTR/RTS lines and the addresses are tried. */
module Discover {
  import opened Hex
  import opened Diagnostic

  /** The probe `test_config` writes: `[0xA0, 0x03, addr, cmd, cs]`, the checksum over
      the three bytes after the header. */
  function ProbeFrame(addr: Byte, cmd: Byte): (p: seq<Byte>)
  {
    var payload: seq<Byte> := [3, addr, cmd];
    [A0Header] + payload + [TwosChecksum(payload)]
  }

  /** The probe's length byte counts the address, the command and the checksum: it is
      the number of bytes after it. Its checksum cancels the bytes it covers. */
  lemma ProbeFrameLayout(addr: Byte, cmd: Byte)
    ensures var p := ProbeFrame(addr, cmd);
      |p| == 5 && p[0] == A0Header && p[1] == |p| - 2 && p[2] == addr && p[3] == cmd
    ensures var p := ProbeFrame(addr, cmd);
      (Sum(p[1..4]) + p[4]) % 256 == 0
  {
    var payload: seq<Byte> := [3, addr, cmd];
    assert ProbeFrame(addr, cmd)[1..4] == payload;
    TwosChecksumCancels(payload, 0);
  }

  /** The two A0 conventions disagree: for the same command sent to the broadcast
      address, the diagnostic frame's length byte is 2 (checksum not counted) where
      the discovery probe's is 3 (checksum counted), and nothing else in the header
      differs. */
  lemma LengthConventionsDisagree(cmd: Byte)
    ensures var d := Probe(A0Twos, cmd, []).value;
      var q := ProbeFrame(Broadcast, cmd);
      |d| == |q| && d[0] == q[0] && d[2..4] == q[2..4] && d[1] == 2 && q[1] == 3
  {
    A0LengthExcludesChecksum(cmd, []);
  }

  /** What one attempt of `test_config` met: opening the port raised, writing or
      reading raised, or the read returned these bytes (possibly none). */
  datatype Reply = OpenFailed | IoFailed | Read(resp: seq<Byte>)

  /** `test_config`'s verdict: true exactly when a non-empty response was read; every
      exception gives false. */
  predicate Answers(reply: Reply)
  {
    reply.Read? && reply.resp != []
  }

  /** One configuration: the DTR and RTS levels and the reader address. */
  datatype Attempt = Attempt(dtr: bool, rts: bool, addr: Byte)

  const Levels: seq<bool> := [true, false]
  const Fallbacks: seq<Byte> := [0x00, 0x01]

  /** Every configuration the search can try, in order: DTR then RTS over
      [True, False] at the broadcast address, then addresses 0x00 and 0x01 with both
      lines high. */
  function SearchOrder(): (order: seq<Attempt>)
    ensures |order| == 6
  {
    [ Attempt(true, true, 0xFF), Attempt(true, false, 0xFF),
      Attempt(false, true, 0xFF), Attempt(false, false, 0xFF),
      Attempt(true, true, 0x00), Attempt(true, true, 0x01) ]
  }

  ghost predicate NoneAnswer(replies: seq<Reply>, n: nat)
    requires n <= |replies|
  {
    forall k :: 0 <= k < n ==> !Answers(replies[k])
  }

  /** The search in `__main__`. `replies[k]` is what the device does when tried in
      configuration `SearchOrder()[k]`. The configurations tried are a prefix of the
      order that ends at the first one that answers, or the whole order when none
      does. */
  method Search(replies: seq<Reply>) returns (found: bool, tried: seq<Attempt>)
    requires |replies| == |SearchOrder()|
    ensures |tried| <= |SearchOrder()| && tried == SearchOrder()[..|tried|]
    ensures found <==> exists k :: 0 <= k < |replies| && Answers(replies[k])
    ensures found ==> 0 < |tried| && Answers(replies[|tried| - 1]) && NoneAnswer(replies, |tried| - 1)
    ensures !found ==> tried == SearchOrder()
  {
    found := false;
    tried := [];
    for i := 0 to |Levels|
      invariant !found && |tried| == 2 * i
      invariant tried == SearchOrder()[..|tried|]
      invariant NoneAnswer(replies, |tried|)
    {
      for j := 0 to |Levels|
        invariant !found && |tried| == 2 * i + j
        invariant tried == SearchOrder()[..|tried|]
        invariant NoneAnswer(replies, |tried|)
      {
        var attempt := Attempt(Levels[i], Levels[j], 0xFF);
        assert SearchOrder()[|tried|] == attempt;
        tried := tried + [attempt];
        if Answers(replies[|tried| - 1]) {
          found := true;
          break;
        }
      }
      if found {
        break;
      }
    }
    if !found {
      for i := 0 to |Fallbacks|
        invariant !found && |tried| == 4 + i
        invariant tried == SearchOrder()[..|tried|]
        invariant NoneAnswer(replies, |tried|)
      {
        var attempt := Attempt(true, true, Fallbacks[i]);
        assert SearchOrder()[|tried|] == attempt;
        tried := tried + [attempt];
        if Answers(replies[|tried| - 1]) {
          found := true;
          break;
        }
      }
    }
    if !found {
      assert tried == SearchOrder()[..6];
    }
  }
}
