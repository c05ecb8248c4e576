/** The reader's raw frame, `[len, addr, cmd, data..., crc_lo, crc_hi]`, where `len`
    counts every byte after itself and the CRC covers every byte before it.

    `Encode` is the frame `send_command` writes; `Decode` is what one call of
    `receive_response` makes of the bytes waiting on the link. The link is a byte
    sequence read from the front: a read of n bytes returns the next min(n, remaining)
    bytes, and the serial input flush discards everything still waiting. */
module Frame {
  import opened Wrappers
  import opened Hex
  import opened Crc16

  /** The receiver's sanity bound on the length byte. */
  const MinLength := 3
  const MaxLength := 64

  datatype Response = Response(addr: Byte, cmd: Byte, data: seq<Byte>)

  /** The outcome of one receive: the response, if any, and the bytes left waiting. */
  datatype Decoded = Decoded(resp: Option<Response>, rest: seq<Byte>)

  /** `[len, addr, cmd] + data`, the part of a frame the CRC covers. */
  function Header(addr: Byte, cmd: Byte, data: seq<Byte>): seq<Byte>
    requires |data| <= 251
  {
    [4 + |data|, addr, cmd] + data
  }

  /** The frame `send_command` builds. Python's `bytearray` refuses a length byte
      above 255, so a data part longer than 251 bytes gives no frame. */
  function Encode(addr: Byte, cmd: Byte, data: seq<Byte>): (f: Option<seq<Byte>>)
    ensures f.Some? <==> |data| <= 251
    ensures f.Some? ==> |f.value| == 5 + |data| && f.value[0] == 4 + |data| && |f.value| == f.value[0] as int + 1
    ensures f.Some? ==> f.value[1] == addr && f.value[2] == cmd && f.value[3..|f.value| - 2] == data
  {
    if |data| > 251 then None
    else
      var h := Header(addr, cmd, data);
      var crc := Crc(h);
      assert (h + [Low(crc), High(crc)])[3..|h|] == data;
      Some(h + [Low(crc), High(crc)])
  }

  /** One call of `receive_response` on the waiting bytes `stream`. */
  function Decode(stream: seq<Byte>, isSerial: bool): (d: Decoded)
  {
    if stream == [] then Decoded(None, [])
    else
      var len := stream[0];
      if len < MinLength || len > MaxLength then
        Decoded(None, if isSerial then [] else stream[1..])
      else if |stream| - 1 < len then
        Decoded(None, [])
      else
        var payload := stream[1..len + 1];
        var crc := Crc([len] + payload[..len - 2]);
        var rest := stream[len + 1..];
        if Low(crc) != payload[len - 2] || High(crc) != payload[len - 1] then
          Decoded(None, rest)
        else
          var data := if len >= 4 then payload[2..len - 2] else [];
          Decoded(Some(Response(payload[0], payload[1], data)), rest)
  }

  /** A stream whose length byte is in range and whose body is all there: the
      receiver checks the CRC over the length byte and the body before the two CRC
      bytes, and consumes exactly the frame. */
  lemma DecodeWhole(stream: seq<Byte>, isSerial: bool, payload: seq<Byte>, rest: seq<Byte>)
    requires stream != [] && MinLength <= stream[0] <= MaxLength
    requires |payload| == stream[0] && |stream| >= |payload| + 1
    requires payload == stream[1..|payload| + 1] && rest == stream[|payload| + 1..]
    ensures var len := stream[0];
      var crc := Crc([len] + payload[..len - 2]);
      Decode(stream, isSerial).rest == rest
      && (Decode(stream, isSerial).resp.Some? <==> Low(crc) == payload[len - 2] && High(crc) == payload[len - 1])
      && (Decode(stream, isSerial).resp.Some? ==>
            Decode(stream, isSerial).resp.value == Response(payload[0], payload[1], if len >= 4 then payload[2..len - 2] else []))
  {
    var len := stream[0];
    assert !(|stream| - 1 < len);
  }

  /** A receive always consumes input: what is left is a proper suffix of what was
      waiting, or nothing at all after a serial flush. */
  lemma DecodeConsumes(stream: seq<Byte>, isSerial: bool)
    requires stream != []
    ensures |Decode(stream, isSerial).rest| < |stream|
    ensures var r := Decode(stream, isSerial).rest;
      r == [] || r == stream[|stream| - |r|..]
  {
  }

  /** Every encoded frame ends on a zero CRC register (the catalogued residue of
      CRC-16/MCRF4XX). */
  lemma EncodedResidue(addr: Byte, cmd: Byte, data: seq<Byte>)
    requires |data| <= 251
    ensures Crc(Encode(addr, cmd, data).value) == 0
  {
    Residue(Header(addr, cmd, data));
  }

  /** The register turns over the inventory request's header bytes. */
  lemma InventoryRequestSteps()
    ensures Update(0xFFFF, 0x06) == 0x6AB1 && Update(0x6AB1, 0x00) == 0xA468 && Update(0xA468, 0x01) == 0xFE63
    ensures Update(0xFE63, 0x04) == 0x1747 && Update(0x1747, 0x00) == 0x36AC
  {
  }

  /** The register turns over the reader-information request's header bytes. */
  lemma ReaderInformationRequestSteps()
    ensures Update(0xFFFF, 0x04) == 0x49A3 && Update(0x49A3, 0x00) == 0x97D8 && Update(0x97D8, 0x21) == 0x6AD9
  {
  }

  /** The CRC register over the inventory request's header. */
  lemma InventoryRequestHeaderCrc()
    ensures Crc([0x06, 0x00, 0x01, 0x04, 0x00]) == 0x36AC
  {
    var none: seq<Byte> := [];
    var h3: seq<Byte> := [0x06, 0x00, 0x01];
    InventoryRequestSteps();
    CrcAppend3(none, 0x06, 0x00, 0x01);
    assert none + [0x06, 0x00, 0x01] == h3;
    CrcAppend2(h3, 0x04, 0x00);
    assert h3 + [0x04, 0x00] == [0x06, 0x00, 0x01, 0x04, 0x00];
  }

  /** The inventory request to address 0: command 0x01 with `[0x04, 0x00]`. */
  lemma InventoryRequest()
    ensures Encode(0x00, 0x01, [0x04, 0x00]) == Some([0x06, 0x00, 0x01, 0x04, 0x00, 0xAC, 0x36])
  {
    InventoryRequestHeaderCrc();
    var h: seq<Byte> := [0x06, 0x00, 0x01, 0x04, 0x00];
    assert Header(0x00, 0x01, [0x04, 0x00]) == h;
    assert Encode(0x00, 0x01, [0x04, 0x00]) == Some(h + [Low(Crc(h)), High(Crc(h))]);
    assert Low(0x36AC) == 0xAC && High(0x36AC) == 0x36;
    assert h + [0xAC, 0x36] == [0x06, 0x00, 0x01, 0x04, 0x00, 0xAC, 0x36];
  }

  /** The CRC register over the reader-information request's header. */
  lemma ReaderInformationRequestHeaderCrc()
    ensures Crc([0x04, 0x00, 0x21]) == 0x6AD9
  {
    var none: seq<Byte> := [];
    ReaderInformationRequestSteps();
    CrcAppend3(none, 0x04, 0x00, 0x21);
    assert none + [0x04, 0x00, 0x21] == [0x04, 0x00, 0x21];
  }

  /** The reader-information request to address 0: command 0x21 with no data. */
  lemma ReaderInformationRequest()
    ensures Encode(0x00, 0x21, []) == Some([0x04, 0x00, 0x21, 0xD9, 0x6A])
  {
    ReaderInformationRequestHeaderCrc();
    var h: seq<Byte> := [0x04, 0x00, 0x21];
    assert Header(0x00, 0x21, []) == h;
    assert Encode(0x00, 0x21, []) == Some(h + [Low(Crc(h)), High(Crc(h))]);
    assert Low(0x6AD9) == 0xD9 && High(0x6AD9) == 0x6A;
    assert h + [0xD9, 0x6A] == [0x04, 0x00, 0x21, 0xD9, 0x6A];
  }

  /** Round trip: the receiver takes back exactly what the sender framed, when the
      frame fits the receiver's length bound, and leaves the following bytes waiting. */
  lemma RoundTrip(addr: Byte, cmd: Byte, data: seq<Byte>, rest: seq<Byte>, isSerial: bool)
    requires |data| <= MaxLength - 4
    ensures Decode(Encode(addr, cmd, data).value + rest, isSerial) == Decoded(Some(Response(addr, cmd, data)), rest)
  {
    var h := Header(addr, cmd, data);
    var f := Encode(addr, cmd, data).value;
    var stream := f + rest;
    var len := 4 + |data|;
    var payload := stream[1..len + 1];
    assert payload == h[1..] + [Low(Crc(h)), High(Crc(h))];
    assert [len] + payload[..len - 2] == h;
    assert payload[2..len - 2] == data;
    assert stream[len + 1..] == rest;
  }

  /** Soundness: a response the receiver accepts from a length byte of 4 or more is
      exactly the frame the sender would build for it. */
  lemma Sound(stream: seq<Byte>, isSerial: bool)
    requires Decode(stream, isSerial).resp.Some?
    requires stream[0] >= 4
    ensures var r := Decode(stream, isSerial).resp.value;
      Encode(r.addr, r.cmd, r.data) == Some(stream[..stream[0] + 1])
    ensures Decode(stream, isSerial).rest == stream[stream[0] + 1..]
  {
    var len := stream[0];
    var payload := stream[1..len + 1];
    var r := Decode(stream, isSerial).resp.value;
    assert r == Response(payload[0], payload[1], payload[2..len - 2]);
    var h := Header(r.addr, r.cmd, r.data);
    assert h == [len] + payload[..len - 2];
    assert stream[..len + 1] == h + [payload[len - 2], payload[len - 1]];
  }

  /** A length byte of 3 is accepted: the byte in the command position is then the
      low CRC byte, the high CRC byte follows, and the data part is empty. */
  lemma ShortFrameAccepted(addr: Byte, rest: seq<Byte>, isSerial: bool)
    ensures var c := Crc([3, addr]);
      Decode([3, addr, Low(c), High(c)] + rest, isSerial) == Decoded(Some(Response(addr, Low(c), [])), rest)
  {
    var c := Crc([3, addr]);
    var stream := [3, addr, Low(c), High(c)] + rest;
    assert stream[1..4] == [addr, Low(c), High(c)];
    assert [3] + stream[1..4][..1] == [3, addr];
    assert stream[4..] == rest;
  }

  /** A length byte outside 3..64 yields nothing and consumes that one byte, or the
      whole input on a serial link. */
  lemma BadLengthRejected(stream: seq<Byte>, isSerial: bool)
    requires stream != [] && (stream[0] < MinLength || stream[0] > MaxLength)
    ensures Decode(stream, isSerial) == Decoded(None, if isSerial then [] else stream[1..])
  {
  }

  /** A body shorter than the length byte promises yields nothing and leaves nothing. */
  lemma TruncatedRejected(stream: seq<Byte>, isSerial: bool)
    requires stream != [] && MinLength <= stream[0] <= MaxLength && |stream| <= stream[0]
    ensures Decode(stream, isSerial) == Decoded(None, [])
  {
  }

  /** Changing any one byte after the length byte of a frame makes the receiver
      reject it. */
  lemma CorruptionDetected(addr: Byte, cmd: Byte, data: seq<Byte>, rest: seq<Byte>, isSerial: bool, i: nat, v: Byte)
    requires |data| <= MaxLength - 4
    requires 1 <= i < |Encode(addr, cmd, data).value|
    requires Encode(addr, cmd, data).value[i] != v
    ensures Decode(Encode(addr, cmd, data).value[i := v] + rest, isSerial).resp == None
  {
    var h := Header(addr, cmd, data);
    var f := Encode(addr, cmd, data).value;
    var g := f[i := v];
    var len := 4 + |data|;
    assert f == h + [Low(Crc(h)), High(Crc(h))];
    CorruptedFrameLayout(h, Low(Crc(h)), High(Crc(h)), rest, i, v);
    if i < len - 1 {
      SingleByteChangeDetected(h, i, v);
      DistinctRegistersDistinctBytes(Crc(h[i := v]), Crc(h));
    }
  }

  /** Where the parts of a frame `h + [lo, hi]` with byte `i` changed sit in the
      receiver's view of `frame + rest`. */
  lemma CorruptedFrameLayout(h: seq<Byte>, lo: Byte, hi: Byte, rest: seq<Byte>, i: nat, v: Byte)
    requires 1 <= |h| && h[0] as int == |h| + 1 && 1 <= i < |h| + 2
    ensures var stream := (h + [lo, hi])[i := v] + rest;
      var len := stream[0];
      len as int == |h| + 1 && |stream| - 1 >= len
      && stream[len + 1..] == rest
      && [len] + stream[1..len + 1][..len - 2] == (if i < |h| then h[i := v] else h)
      && stream[1..len + 1][len - 2] == (if i == |h| then v else lo)
      && stream[1..len + 1][len - 1] == (if i == |h| + 1 then v else hi)
  {
    var stream := (h + [lo, hi])[i := v] + rest;
    var len := stream[0];
    assert [len] + stream[1..len + 1][..len - 2] == (if i < |h| then h[i := v] else h);
  }

  /** An inventory tag record: the EPC as upper-case hex, the RSSI byte, the antenna byte. */
  datatype Tag = Tag(epc: string, rssi: Byte, ant: Byte)

  /** The tag parser of `inventory_real_time` on one response:
      `[ant, r, r, n, epc(n), rssi, ...]` under command 0x01. */
  function ParseTag(r: Response): (t: Option<Tag>)
    ensures t.Some? <==> r.cmd == 0x01 && |r.data| > 4 && |r.data| >= 5 + r.data[3] as int
    ensures t.Some? ==> t.value.rssi == r.data[4 + r.data[3]] && t.value.ant == r.data[0]
    ensures t.Some? ==> |t.value.epc| == 2 * r.data[3] as int
  {
    if r.cmd == 0x01 && |r.data| > 4 && |r.data| >= 5 + r.data[3] as int then
      var n := r.data[3];
      var epc := r.data[4..4 + n];
      HexUpperShape(epc);
      Some(Tag(HexUpper(epc), r.data[4 + n], r.data[0]))
    else
      None
  }

  /** The EPC a tag names reads back, with `bytes.fromhex`, as exactly the `n` bytes
      that followed the length byte. */
  lemma ParseTagEpc(r: Response)
    requires ParseTag(r).Some?
    ensures FromHex(ParseTag(r).value.epc) == Some(r.data[4..4 + r.data[3]])
  {
    FromHexOfHexUpper(r.data[4..4 + r.data[3]]);
  }

  /** A well-formed command-0x01 response names the tag of its own fields. */
  lemma ParseTagFields(r: Response)
    requires r.cmd == 0x01 && |r.data| > 4 && |r.data| >= 5 + r.data[3] as int
    ensures ParseTag(r) == Some(Tag(HexUpper(r.data[4..4 + r.data[3]]), r.data[4 + r.data[3]], r.data[0]))
  {
  }

  /** Where the fields of `[ant, r1, r2, n] + epc + [rssi]` sit. */
  lemma InventoryDataFields(ant: Byte, r1: Byte, r2: Byte, epc: seq<Byte>, rssi: Byte)
    requires |epc| < 256
    ensures var data: seq<Byte> := [ant, r1, r2, |epc|] + epc + [rssi];
      |data| == 5 + |epc| && data[0] == ant && data[3] as int == |epc|
      && data[4..4 + |epc|] == epc && data[4 + |epc|] == rssi
  {
    var data: seq<Byte> := [ant, r1, r2, |epc|] + epc + [rssi];
    assert data[4..4 + |epc|] == epc;
  }

  /** A command-0x01 response whose data is `[ant, r1, r2, n] + epc + [rssi]` names
      the tag: the EPC's upper-case hex, the RSSI, the antenna. */
  lemma TagOfInventoryData(addr: Byte, ant: Byte, r1: Byte, r2: Byte, epc: seq<Byte>, rssi: Byte)
    requires |epc| < 256
    ensures ParseTag(Response(addr, 0x01, [ant, r1, r2, |epc|] + epc + [rssi])) == Some(Tag(HexUpper(epc), rssi, ant))
  {
    var n: Byte := |epc|;
    var data: seq<Byte> := [ant, r1, r2, n] + epc + [rssi];
    InventoryDataFields(ant, r1, r2, epc, rssi);
    ParseTagFields(Response(addr, 0x01, data));
  }

  lemma TagsRegroup(a: seq<Tag>, b: seq<Tag>, c: seq<Tag>)
    ensures a + (b + c) == (a + b) + c
  {
  }

  lemma TagsAppendNothing(a: seq<Tag>)
    ensures a + [] == a
  {
  }

  /** The tag one receive contributes: none, or the one its response carries. */
  function Found(d: Decoded): (tags: seq<Tag>)
    ensures |tags| <= 1
  {
    if d.resp.Some? && ParseTag(d.resp.value).Some? then [ParseTag(d.resp.value).value] else []
  }

  /** The listen window of `inventory_real_time` as `attempts` receives in a row: the
      tags found, in arrival order, and the bytes left waiting. */
  function Listen(stream: seq<Byte>, isSerial: bool, attempts: nat): (seq<Tag>, seq<Byte>)
    decreases attempts
  {
    if attempts == 0 then ([], stream)
    else
      var d := Decode(stream, isSerial);
      var (later, rest) := Listen(d.rest, isSerial, attempts - 1);
      (Found(d) + later, rest)
  }

  /** One receive of the window, unfolded. */
  lemma ListenStep(stream: seq<Byte>, isSerial: bool, attempts: nat)
    requires attempts > 0
    ensures Listen(stream, isSerial, attempts).0 ==
      Found(Decode(stream, isSerial)) + Listen(Decode(stream, isSerial).rest, isSerial, attempts - 1).0
    ensures Listen(stream, isSerial, attempts).1 == Listen(Decode(stream, isSerial).rest, isSerial, attempts - 1).1
  {
  }

  /** At most one tag per receive. */
  lemma {:induction false} ListenBound(stream: seq<Byte>, isSerial: bool, attempts: nat)
    ensures |Listen(stream, isSerial, attempts).0| <= attempts
    decreases attempts
  {
    if attempts > 0 {
      ListenBound(Decode(stream, isSerial).rest, isSerial, attempts - 1);
    }
  }

  /** Nothing waiting, nothing found. */
  lemma {:induction false} ListenSilent(isSerial: bool, attempts: nat)
    ensures Listen([], isSerial, attempts) == ([], [])
  {
    if attempts > 0 {
      assert Decode([], isSerial) == Decoded(None, []);
      ListenStep([], isSerial, attempts);
      ListenSilent(isSerial, attempts - 1);
    }
  }
}
