/** The self-test of `test_mock.py`: a simulated reader that answers each inventory
    request with exactly one tag frame drawn from a five-entry table, and the driver
    run against it. The frame builder is the one of `mock_server.py` (the code is the
    same); the random choice is a parameter. */
module TestMock {
  import opened Hex
  import opened Frame
  import opened MockServer
  import opened Sequences

  /** `tags_db` of `mock_reader_server`: four tyres of one vehicle and one alien. */
  const TagsDb: seq<string> := [
    "E20000195607022216503895", "E20000195607022216503896", "E20000195607022216503897",
    "E20000195607022216503898", "E20000195607022216509999" ]

  /** Every entry is 24 upper-case hex digits: a 12-byte EPC, so every frame's length
      byte is 21. */
  lemma TagsDbWellFormed()
    ensures forall p :: 0 <= p < |TagsDb| ==> HexEpc(TagsDb[p]) && |TagsDb[p]| == 24
  {
    forall p | 0 <= p < |TagsDb|
      ensures HexEpc(TagsDb[p]) && |TagsDb[p]| == 24
    {
      if p < 3 {
        EarlyEntriesWellFormed(p);
      } else {
        LateEntriesWellFormed(p);
      }
    }
  }

  lemma EarlyEntriesWellFormed(p: nat)
    requires p < 3
    ensures HexEpc(TagsDb[p]) && |TagsDb[p]| == 24
  {
    if p == 0 {
      assert HexEpc(TagsDb[0]);
    } else if p == 1 {
      assert HexEpc(TagsDb[1]);
    } else {
      assert HexEpc(TagsDb[2]);
    }
  }

  lemma LateEntriesWellFormed(p: nat)
    requires 3 <= p < 5
    ensures HexEpc(TagsDb[p]) && |TagsDb[p]| == 24
  {
    if p == 3 {
      assert HexEpc(TagsDb[3]);
    } else {
      assert HexEpc(TagsDb[4]);
    }
  }

  /** Every entry the mock can draw is a hex EPC. */
  lemma DrawnEntryHex(pick: string)
    requires pick in TagsDb
    ensures HexEpc(pick) && |pick| == 24
  {
    TagsDbWellFormed();
    var p :| 0 <= p < |TagsDb| && TagsDb[p] == pick;
  }

  /** The bytes sent from chunk `i` on, up to the first empty chunk (the peer
      closed). `picks[i]` is the entry drawn for chunk `i`. */
  function AnswersFrom(chunks: seq<seq<Byte>>, picks: seq<string>, i: nat): seq<Byte>
    requires |picks| == |chunks| && i <= |chunks|
    decreases |chunks| - i
  {
    if i == |chunks| || chunks[i] == [] then []
    else Burst(chunks[i], [picks[i]]) + AnswersFrom(chunks, picks, i + 1)
  }

  /** Nothing is sent once the peer has closed or the chunks are exhausted. */
  lemma AnswersEnd(chunks: seq<seq<Byte>>, picks: seq<string>, i: nat)
    requires |picks| == |chunks| && i <= |chunks|
    requires i == |chunks| || chunks[i] == []
    ensures AnswersFrom(chunks, picks, i) == []
  {
  }

  /** One request, one frame: an inventory request drawn from the table gets a single
      22-byte frame, anything else nothing. */
  lemma AnswerSize(chunk: seq<Byte>, pick: string)
    requires pick in TagsDb
    ensures Triggers(chunk) ==> |Burst(chunk, [pick])| == 22
    ensures !Triggers(chunk) ==> Burst(chunk, [pick]) == []
  {
    DrawnEntryHex(pick);
    EntryHeard(pick, [], false);
    FramesOne(pick);
  }

  /** The answer to one chunk: the frame of the entry drawn when the chunk is an
      inventory request, else nothing. It is a burst of one frame. */
  method AnswerOne(chunk: seq<Byte>, pick: string) returns (answer: seq<Byte>)
    ensures answer == Burst(chunk, [pick])
  {
    answer := [];
    if Triggers(chunk) {
      answer := EntryFrameOf(pick);
      FramesOne(pick);
    }
  }

  /** One turn of the receive/respond loop: the answer to chunk `i` goes out after
      what was already sent. */
  method AnswerNext(chunks: seq<seq<Byte>>, picks: seq<string>, i: nat, sent: seq<Byte>) returns (longer: seq<Byte>)
    requires |picks| == |chunks| && i < |chunks| && chunks[i] != []
    ensures longer + AnswersFrom(chunks, picks, i + 1) == sent + AnswersFrom(chunks, picks, i)
  {
    var answer := AnswerOne(chunks[i], picks[i]);
    Regroup(sent, answer, AnswersFrom(chunks, picks, i + 1));
    longer := sent + answer;
  }

  /** The receive/respond loop of `mock_reader_server`. */
  method MockReaderServer(chunks: seq<seq<Byte>>, picks: seq<string>) returns (sent: seq<Byte>)
    requires |picks| == |chunks|
    ensures sent == AnswersFrom(chunks, picks, 0)
  {
    ghost var total := AnswersFrom(chunks, picks, 0);
    sent := [];
    var i := 0;
    while i < |chunks| && chunks[i] != []
      invariant i <= |chunks| && total == sent + AnswersFrom(chunks, picks, i)
    {
      sent := AnswerNext(chunks, picks, i, sent);
      i := i + 1;
    }
    AnswersEnd(chunks, picks, i);
    AppendNothing(sent);
  }
}

module TestMockRun {
  import opened Hex
  import opened Frame
  import opened MockServer
  import opened Sequences
  import opened Driver
  import TestMock

  /** The driver's inventory request is one the mock answers: it is longer than two
      bytes and its third byte is command 0x01. */
  lemma InventoryRequestTriggers(address: Byte)
    ensures Triggers(InventoryFrame(address))
  {
  }

  /** The mock's answer to the driver's inventory request, heard by a listen window
      of at least one receive, is exactly the tag drawn. */
  lemma AnswerHeard(address: Byte, pick: string, attempts: nat)
    requires pick in TestMock.TagsDb && attempts >= 1
    ensures Listen(Burst(InventoryFrame(address), [pick]), false, attempts).0 == [Tag(pick, Rssi, Antenna)]
  {
    InventoryRequestTriggers(address);
    TestMock.DrawnEntryHex(pick);
    assert AllHex([pick]);
    BurstHeard([pick], 0, false, attempts);
    TagsOfOne(pick);
  }

  /** `__main__`: a TCP reader at the default address connects, sends the inventory
      command, and the mock answers with the frame for `pick`; the listen window
      (at least one receive) reports exactly that tag. */
  method Scenario(pick: string, attempts: nat) returns (tags: seq<Tag>)
    requires pick in TestMock.TagsDb && attempts >= 1
    ensures tags == [Tag(pick, Rssi, Antenna)]
  {
    var reader := new UHFReader(0x00, false);
    var _ := reader.Connect(Opened(true));
    var answer := TestMock.AnswerOne(InventoryFrame(reader.address), pick);
    AnswerHeard(reader.address, pick, attempts);
    AppendNothing(answer);
    var r := reader.InventoryRealTime(answer, attempts);
    tags := r.value;
  }
}
