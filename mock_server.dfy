/** The simulated reader of `mock_server.py`: the tag response frame it builds, the
    rule deciding which received chunks are inventory requests, and the connection
    loop answering each with a burst of one to three frames. The random choices are
    parameters. The frame builder is shared with `test_mock.py`, whose code is the
    same. */
module MockServer {
  import opened Wrappers
  import opened Hex
  import opened Crc16
  import opened Frame
  import opened Sequences

  /** The RSSI byte every mock tag reports. */
  const Rssi: Byte := 0x81
  /** The antenna byte that opens every mock tag payload. */
  const Antenna: Byte := 0x03
  /** Address and command bytes of every mock response. */
  const Responder: Byte := 0x01
  const InventoryCmd: Byte := 0x01

  /** A received chunk is answered when it has more than two bytes and its third byte,
      the command of a driver frame, is 0x01. */
  predicate Triggers(chunk: seq<Byte>)
  {
    |chunk| > 2 && chunk[2] == InventoryCmd
  }

  /** `[0x03, 0x01, 0x01, n] + epc + [rssi]`. */
  function TagPayload(epc: seq<Byte>): seq<Byte>
    requires |epc| < 256
  {
    [Antenna, 1, 1, |epc|] + epc + [Rssi]
  }

  /** The response frame for one EPC: the length byte `|body| + 2`, the body
      `[0x01, 0x01] + payload`, and the CRC over both, low byte first. Python's `bytes`
      raises once the length byte passes 255, which happens beyond 246 EPC bytes. */
  function TagFrame(epc: seq<Byte>): (f: Option<seq<Byte>>)
  {
    if |epc| > 246 then None
    else
      var body := [Responder, InventoryCmd] + TagPayload(epc);
      var packet := [|body| + 2] + body;
      var crc := Crc(packet);
      Some(packet + [Low(crc), High(crc)])
  }

  /** The mock frame is the driver's own frame for address 0x01, command 0x01 and the
      tag payload, so the two encoders agree byte for byte. */
  lemma TagFrameIsDriverFrame(epc: seq<Byte>)
    requires |epc| < 256
    ensures TagFrame(epc) == Encode(Responder, InventoryCmd, TagPayload(epc))
  {
    if |epc| <= 246 {
      var payload := TagPayload(epc);
      var body := [Responder, InventoryCmd] + payload;
      assert [|body| + 2] + body == Header(Responder, InventoryCmd, payload);
    }
  }

  /** `[n+9, 0x01, 0x01, 0x03, 0x01, 0x01, n, epc, 0x81, lo, hi]`, with a CRC that
      covers every byte before it. */
  lemma TagFrameLayout(epc: seq<Byte>)
    requires |epc| <= 246
    ensures var f := TagFrame(epc).value;
      |f| == |epc| + 10 && f[0] == |epc| + 9 && f[1..7] == [1, 1, 3, 1, 1, |epc|]
      && f[7..7 + |epc|] == epc && f[7 + |epc|] == Rssi
    ensures Crc(TagFrame(epc).value) == 0
  {
    var n: Byte := |epc|;
    var lengthByte: Byte := n + 9;
    var packet: seq<Byte> := [lengthByte, 1, 1, 3, 1, 1, n] + epc + [Rssi];
    assert packet == [lengthByte] + ([Responder, InventoryCmd] + TagPayload(epc));
    var c := Crc(packet);
    var f := TagFrame(epc).value;
    assert f == packet + [Low(c), High(c)];
    assert f[1..7] == [1, 1, 3, 1, 1, n];
    assert f[7..7 + n] == epc;
    TagFrameIsDriverFrame(epc);
    EncodedResidue(Responder, InventoryCmd, TagPayload(epc));
  }

  /** The driver decodes a mock frame (with anything after it) to the mock response,
      and its inventory parser turns that into the tag: the EPC spelled in upper-case
      hex, RSSI 0x81, antenna 3. EPCs up to 55 bytes keep the length byte within the
      driver's bound of 64. */
  lemma TagFrameHeard(epc: seq<Byte>, rest: seq<Byte>, isSerial: bool)
    requires |epc| <= MaxLength - 9
    ensures Decode(TagFrame(epc).value + rest, isSerial) ==
      Decoded(Some(Response(Responder, InventoryCmd, TagPayload(epc))), rest)
    ensures Found(Decode(TagFrame(epc).value + rest, isSerial)) == [Tag(HexUpper(epc), Rssi, Antenna)]
  {
    TagFrameIsDriverFrame(epc);
    RoundTrip(Responder, InventoryCmd, TagPayload(epc), rest, isSerial);
    TagParsed(epc);
  }

  lemma TagParsed(epc: seq<Byte>)
    requires |epc| < 256
    ensures ParseTag(Response(Responder, InventoryCmd, TagPayload(epc))) == Some(Tag(HexUpper(epc), Rssi, Antenna))
  {
    TagOfInventoryData(Responder, Antenna, 1, 1, epc, Rssi);
  }

  /** A table entry as the mock reads it: an even number of upper-case hex digits, at
      most 110 of them, so that `bytes.fromhex` accepts it and the frame fits the
      driver's bound. */
  ghost predicate HexEpc(s: string)
  {
    |s| % 2 == 0 && |s| <= 2 * (MaxLength - 9) && forall i :: 0 <= i < |s| ==> IsUpperHexDigit(s[i])
  }

  /** `bytes.fromhex` accepts a table entry, giving half as many bytes, and the driver's
      upper-case spelling of those bytes is the entry itself. */
  lemma EntryBytes(s: string)
    requires HexEpc(s)
    ensures FromHex(s).Some? && |FromHex(s).value| * 2 == |s|
    ensures HexUpper(FromHex(s).value) == s
  {
    HexUpperOfFromHex(s);
    HexUpperShape(FromHex(s).value);
  }

  /** `tags_db` of `run_server`. */
  const TagsDb: seq<string> := ["E20000195607022216503895", "E20000195607022216503896"]

  /** Both entries are 24 hex digits: 12-byte EPCs, so every frame's length byte is
      21, inside the driver's 3..64 bound. */
  lemma TagsDbWellFormed()
    ensures forall p :: 0 <= p < |TagsDb| ==> HexEpc(TagsDb[p]) && |TagsDb[p]| == 24
  {
    assert HexEpc(TagsDb[0]);
    assert HexEpc(TagsDb[1]);
  }

  /** Every entry the server can draw is a hex EPC of 12 bytes. */
  lemma DrawnEntryHex(pick: string)
    requires pick in TagsDb
    ensures HexEpc(pick) && |pick| == 24
  {
    TagsDbWellFormed();
    var p :| 0 <= p < |TagsDb| && TagsDb[p] == pick;
  }

  /** The frame for one chosen table entry. Every entry of the tables is hex (see
      `TagsDbWellFormed`); where `bytes.fromhex` would raise, nothing is sent. */
  function EntryFrame(s: string): (f: seq<Byte>)
  {
    if HexEpcBytes(s) then TagFrame(FromHex(s).value).value else []
  }

  /** `bytes.fromhex` accepts `s`, with few enough bytes for a frame. */
  predicate HexEpcBytes(s: string)
  {
    FromHex(s).Some? && |FromHex(s).value| <= 246
  }

  /** The driver hears the frame of a hex entry, whatever follows it, as exactly the
      tag that entry names. */
  lemma EntryHeard(s: string, rest: seq<Byte>, isSerial: bool)
    requires HexEpc(s)
    ensures |EntryFrame(s)| == |s| / 2 + 10
    ensures Decode(EntryFrame(s) + rest, isSerial).rest == rest
    ensures Found(Decode(EntryFrame(s) + rest, isSerial)) == [Tag(s, Rssi, Antenna)]
  {
    EntryBytes(s);
    var epc := FromHex(s).value;
    TagFrameLayout(epc);
    TagFrameHeard(epc, rest, isSerial);
  }

  /** The frame of a hex entry is ten bytes longer than the EPC it spells. */
  lemma EntryFrameSize(s: string)
    requires HexEpc(s)
    ensures |EntryFrame(s)| == |s| / 2 + 10
  {
    EntryBytes(s);
    TagFrameLayout(FromHex(s).value);
  }

  /** The frames for the chosen entries from the `i`-th on, back to back. */
  function Frames(picks: seq<string>, i: nat): seq<Byte>
    requires i <= |picks|
    decreases |picks| - i
  {
    if i == |picks| then [] else EntryFrame(picks[i]) + Frames(picks, i + 1)
  }

  /** The tags the driver should report for those frames. */
  function TagsOf(picks: seq<string>, i: nat): (tags: seq<Tag>)
    requires i <= |picks|
    ensures |tags| == |picks| - i
    decreases |picks| - i
  {
    if i == |picks| then [] else [Tag(picks[i], Rssi, Antenna)] + TagsOf(picks, i + 1)
  }

  /** The tags of a burst of one entry: that entry's tag. */
  lemma TagsOfOne(s: string)
    ensures TagsOf([s], 0) == [Tag(s, Rssi, Antenna)]
  {
    assert TagsOf([s], 1) == [];
  }

  /** A burst of one entry is that entry's frame. */
  lemma FramesOne(s: string)
    ensures Frames([s], 0) == EntryFrame(s)
  {
    FramesCons([s], 0);
    AppendNothing(EntryFrame(s));
  }

  /** A burst from its `i`-th entry on: that entry's frame, then the rest. */
  lemma FramesCons(picks: seq<string>, i: nat)
    requires i < |picks|
    ensures Frames(picks, i) == EntryFrame(picks[i]) + Frames(picks, i + 1)
  {
  }

  /** A window hearing a hex entry's frame followed by other bytes reports the entry's
      tag, then whatever one receive fewer makes of those bytes. */
  lemma EntryThenRest(s: string, later: seq<Byte>, isSerial: bool, attempts: nat)
    requires HexEpc(s) && attempts >= 1
    ensures var rest := Listen(later, isSerial, attempts - 1);
      Listen(EntryFrame(s) + later, isSerial, attempts) == ([Tag(s, Rssi, Antenna)] + rest.0, rest.1)
  {
    var all := EntryFrame(s) + later;
    EntryHeard(s, later, isSerial);
    ListenStep(all, isSerial, attempts);
  }

  /** The cross-file round trip: a burst of mock frames for hex entries, heard by the
      driver's listen window with at least one receive per frame, gives exactly the
      entries picked, in order, with RSSI 0x81 and antenna 3, and leaves nothing
      waiting. */
  ghost predicate AllHex(picks: seq<string>)
  {
    forall k :: 0 <= k < |picks| ==> HexEpc(picks[k])
  }

  lemma {:induction false} BurstHeard(picks: seq<string>, i: nat, isSerial: bool, attempts: nat)
    requires i <= |picks|
    requires AllHex(picks)
    requires attempts >= |picks| - i
    ensures Listen(Frames(picks, i), isSerial, attempts) == (TagsOf(picks, i), [])
    decreases |picks| - i, 1
  {
    if i == |picks| {
      ListenSilent(isSerial, attempts);
    } else {
      BurstStep(picks, i, isSerial, attempts);
    }
  }

  /** One frame more at the front of a burst: one tag more at the front of the report. */
  lemma {:induction false} BurstStep(picks: seq<string>, i: nat, isSerial: bool, attempts: nat)
    requires i < |picks| && AllHex(picks) && attempts >= |picks| - i
    ensures Listen(Frames(picks, i), isSerial, attempts) == (TagsOf(picks, i), [])
    decreases |picks| - i, 0
  {
    BurstHeard(picks, i + 1, isSerial, attempts - 1);
    FramesCons(picks, i);
    EntryThenRest(picks[i], Frames(picks, i + 1), isSerial, attempts);
  }

  /** The loop body's builder: the frame assembled with the CRC routine. */
  method BuildTagFrame(epc: seq<Byte>) returns (f: seq<Byte>)
    requires |epc| <= 246
    ensures f == TagFrame(epc).value
  {
    var epcLen: Byte := |epc|;
    var payload: seq<Byte> := [Antenna, 1, 1, epcLen] + epc + [Rssi];
    var body: seq<Byte> := [Responder, InventoryCmd] + payload;
    var lengthByte: Byte := |body| + 2;
    var packet: seq<Byte> := [lengthByte] + body;
    var crc := Checksum(packet);
    LowHigh(Crc(packet));
    f := packet + [crc % 256, crc / 256];
  }

  /** The frame for one chosen entry, built as the loop body builds it. */
  method EntryFrameOf(s: string) returns (frame: seq<Byte>)
    ensures frame == EntryFrame(s)
  {
    frame := [];
    var bytes := FromHex(s);
    if bytes.Some? && |bytes.value| <= 246 {
      frame := BuildTagFrame(bytes.value);
    }
  }

  /** The frames of one burst, sent one after another. */
  method SendBurst(pick: seq<string>) returns (burst: seq<Byte>)
    ensures burst == Frames(pick, 0)
  {
    ghost var total := Frames(pick, 0);
    burst := [];
    var j := 0;
    while j < |pick|
      invariant j <= |pick| && total == burst + Frames(pick, j)
    {
      burst := AppendFrame(pick, j, burst);
      j := j + 1;
    }
    assert Frames(pick, j) == [];
    AppendNothing(burst);
  }

  /** One turn of the burst loop: the frame of the `j`-th pick goes out after what was
      already sent. */
  method AppendFrame(pick: seq<string>, j: nat, burst: seq<Byte>) returns (longer: seq<Byte>)
    requires j < |pick|
    ensures longer + Frames(pick, j + 1) == burst + Frames(pick, j)
  {
    FramesCons(pick, j);
    var frame := EntryFrameOf(pick[j]);
    Regroup(burst, frame, Frames(pick, j + 1));
    longer := burst + frame;
  }

  /** What `random.randint(1, 3)` and `random.choice(tags_db)` may pick: one to three
      entries of the table. */
  ghost predicate BurstPick(db: seq<string>, pick: seq<string>)
  {
    1 <= |pick| <= 3 && forall k :: 0 <= k < |pick| ==> pick[k] in db
  }

  /** The answer to one chunk: its burst when it is an inventory request. */
  function Burst(chunk: seq<Byte>, pick: seq<string>): seq<Byte>
  {
    if Triggers(chunk) then Frames(pick, 0) else []
  }

  /** The bytes sent back on one connection from chunk `i` on: every chunk up to the
      first empty one (the peer closed) is answered with its burst when it is an
      inventory request, and with nothing otherwise. `picks[i]` is the burst drawn
      for chunk `i`. */
  function RepliesFrom(chunks: seq<seq<Byte>>, picks: seq<seq<string>>, i: nat): seq<Byte>
    requires |picks| == |chunks| && i <= |chunks|
    decreases |chunks| - i
  {
    if i == |chunks| || chunks[i] == [] then []
    else Burst(chunks[i], picks[i]) + RepliesFrom(chunks, picks, i + 1)
  }

  /** One turn of the connection loop: the answer to chunk `i` goes out after what was
      already sent. */
  method AnswerChunk(chunks: seq<seq<Byte>>, picks: seq<seq<string>>, i: nat, sent: seq<Byte>) returns (longer: seq<Byte>)
    requires |picks| == |chunks| && i < |chunks| && chunks[i] != []
    ensures longer + RepliesFrom(chunks, picks, i + 1) == sent + RepliesFrom(chunks, picks, i)
  {
    var answer: seq<Byte> := [];
    if Triggers(chunks[i]) {
      answer := SendBurst(picks[i]);
    }
    Regroup(sent, answer, RepliesFrom(chunks, picks, i + 1));
    longer := sent + answer;
  }

  /** The inner loop of `run_server` on one connection: receive until the peer
      closes (an empty chunk), answering each chunk. */
  method ServeConnection(chunks: seq<seq<Byte>>, picks: seq<seq<string>>) returns (sent: seq<Byte>)
    requires |picks| == |chunks|
    ensures sent == RepliesFrom(chunks, picks, 0)
  {
    ghost var total := RepliesFrom(chunks, picks, 0);
    sent := [];
    var i := 0;
    while i < |chunks| && chunks[i] != []
      invariant i <= |chunks| && total == sent + RepliesFrom(chunks, picks, i)
    {
      sent := AnswerChunk(chunks, picks, i, sent);
      i := i + 1;
    }
    assert RepliesFrom(chunks, picks, i) == [];
    AppendNothing(sent);
  }

  /** A chunk that is not an inventory request gets no answer; one that is gets one
      frame per pick, each of 22 bytes when the picks come from `tags_db`, so one to
      three frames. */
  lemma BurstSize(chunk: seq<Byte>, pick: seq<string>)
    requires BurstPick(TagsDb, pick)
    ensures !Triggers(chunk) ==> Burst(chunk, pick) == []
    ensures Triggers(chunk) ==> |Burst(chunk, pick)| == 22 * |pick| && 22 <= |Burst(chunk, pick)| <= 66
  {
    forall k | 0 <= k < |pick|
      ensures HexEpc(pick[k]) && |pick[k]| == 24
    {
      DrawnEntryHex(pick[k]);
    }
    FramesSize(pick, 0);
  }

  /** Every frame of a burst of 12-byte EPCs is 22 bytes long. */
  lemma {:induction false} FramesSize(pick: seq<string>, i: nat)
    requires i <= |pick|
    requires forall k :: 0 <= k < |pick| ==> HexEpc(pick[k]) && |pick[k]| == 24
    ensures |Frames(pick, i)| == 22 * (|pick| - i)
    decreases |pick| - i
  {
    if i < |pick| {
      EntryFrameSize(pick[i]);
      FramesSize(pick, i + 1);
    }
  }
}
