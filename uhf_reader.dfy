/** The reader client `UHFReader`: the connection flags, the framed command writer,
    the one-frame receiver and the inventory listen window.

    The link is modelled by two byte sequences: `sent`, everything written to it, and
    `incoming`, the bytes waiting to be read. What the reader transmits in answer to a
    command is a parameter (`reply`) of the call that writes the command; it arrives
    after the write. The 500 ms listen window is a number of receive attempts. */
module Driver {
  import opened Wrappers
  import opened Hex
  import opened Crc16
  import opened Frame
  import opened Sequences

  /** Why a call raised instead of returning. */
  datatype Failure = NotConnected | ConnectFailed | ValueOutOfRange

  /** What opening the link did: it raised, or it returned a port or socket (a serial
      port reports whether it is open). */
  datatype LinkOutcome = Refused | Opened(isOpen: bool)

  /** The frame `inventory_real_time` writes: command 0x01 with `[0x04, 0x00]`
      (Q = 4, session 0). */
  function InventoryFrame(address: Byte): (f: seq<Byte>)
    ensures f == Encode(address, 0x01, [0x04, 0x00]).value
    ensures |f| == 7 && f[0] == 6 && f[2] == 0x01
  {
    Encode(address, 0x01, [0x04, 0x00]).value
  }

  class UHFReader {
    const isSerial: bool
    var address: Byte
    var connected: bool
    /** `self.connection` has been set (it is never reset to `None`). */
    var linked: bool
    var sent: seq<Byte>
    var incoming: seq<Byte>

    constructor(address: Byte, isSerial: bool)
      ensures this.address == address && this.isSerial == isSerial
      ensures !connected && !linked && sent == [] && incoming == []
    {
      this.address := address;
      this.isSerial := isSerial;
      connected := false;
      linked := false;
      sent := [];
      incoming := [];
    }

    /** `connect`: a serial port that opens but reports closed leaves `connected` as it
        was (the source's `is_open` test; pyserial opens a port given to its constructor,
        so this outcome is kept only because the branch is written). A serial open that
        raises stores nothing, so an earlier port object stays stored (`linked` is kept).
        A TCP socket is stored before the connect attempt, so it stays stored when the
        attempt raises. */
    method Connect(outcome: LinkOutcome) returns (r: Result<(), Failure>)
      modifies this
      ensures r.Err? <==> outcome == Refused
      ensures r.Err? ==> r.error == ConnectFailed && !connected
      ensures outcome == Opened(true) ==> connected
      ensures isSerial && outcome == Opened(false) ==> connected == old(connected)
      ensures !isSerial && outcome.Opened? ==> connected
      ensures linked == (old(linked) || outcome.Opened? || !isSerial)
      ensures sent == old(sent) && incoming == old(incoming) && address == old(address)
    {
      if isSerial {
        if outcome == Refused {
          connected := false;
          return Err(ConnectFailed);
        }
        linked := true;
        if outcome.isOpen {
          connected := true;
        }
      } else {
        linked := true;
        if outcome == Refused {
          connected := false;
          return Err(ConnectFailed);
        }
        connected := true;
      }
      r := Ok(());
    }

    /** `disconnect`: closing only happens when a connection object was ever stored. */
    method Disconnect()
      modifies this
      ensures connected == (old(connected) && !linked)
      ensures linked == old(linked) && sent == old(sent) && incoming == old(incoming)
      ensures address == old(address)
    {
      if linked {
        connected := false;
      }
    }

    /** `send_command`: raises without writing when not connected; otherwise writes
        the frame, after discarding unread input on a serial link. `reply` is what the
        reader answers. */
    method SendCommand(cmd: Byte, data: seq<Byte>, reply: seq<Byte>) returns (r: Result<(), Failure>)
      modifies this
      ensures !old(connected) ==> r == Err(NotConnected)
      ensures old(connected) && |data| > 251 ==> r == Err(ValueOutOfRange)
      ensures r.Err? ==> sent == old(sent) && incoming == old(incoming)
      ensures r.Ok? <==> old(connected) && |data| <= 251
      ensures r.Ok? ==> sent == old(sent) + Encode(address, cmd, data).value
      ensures r.Ok? ==> incoming == (if isSerial then [] else old(incoming)) + reply
      ensures connected == old(connected) && linked == old(linked) && address == old(address)
    {
      if !connected {
        return Err(NotConnected);
      }
      if 4 + |data| > 255 {
        return Err(ValueOutOfRange);
      }
      var lenByte: Byte := 4 + |data|;
      var prefix: seq<Byte> := [lenByte, address, cmd] + data;
      var crc := Checksum(prefix);
      LowHigh(Crc(prefix));
      var packet := prefix + [crc % 256, crc / 256];
      assert packet == Encode(address, cmd, data).value;
      if isSerial {
        incoming := [];
      }
      sent := sent + packet;
      incoming := incoming + reply;
      r := Ok(());
    }

    /** `read_n`: the next `n` waiting bytes, or all of them when fewer wait. */
    method ReadN(n: nat) returns (got: seq<Byte>)
      modifies this
      ensures |got| == if n < |old(incoming)| then n else |old(incoming)|
      ensures old(incoming) == got + incoming
      ensures sent == old(sent) && connected == old(connected) && linked == old(linked)
      ensures address == old(address)
    {
      var k := if n < |incoming| then n else |incoming|;
      got := incoming[..k];
      incoming := incoming[k..];
    }

    /** The length byte and the payload read one after the other are the first
        `1 + |payload|` waiting bytes, in order. */
    lemma TwoReads(stream: seq<Byte>, head: seq<Byte>, mid: seq<Byte>, payload: seq<Byte>, tail: seq<Byte>)
      requires stream == head + mid && |head| == 1 && mid == payload + tail
      ensures payload == stream[1..|payload| + 1] && tail == stream[|payload| + 1..]
    {
    }

    /** The tail of `receive_response` once the whole body is read: the CRC over
        the length byte and the body before its last two bytes, compared with those
        two bytes read little-endian. */
    static method CheckFrame(len: Byte, payload: seq<Byte>) returns (r: Option<Response>)
      requires MinLength <= len <= MaxLength && |payload| == len
      ensures var crc := Crc([len] + payload[..len - 2]);
        r.Some? <==> Low(crc) == payload[len - 2] && High(crc) == payload[len - 1]
      ensures r.Some? ==> r.value == Response(payload[0], payload[1], if len >= 4 then payload[2..len - 2] else [])
    {
      var full := [len] + payload;
      assert full[..|full| - 2] == [len] + payload[..len - 2];
      var calculated := Checksum(full[..|full| - 2]);
      var received := payload[len - 2] as int + payload[len - 1] as int * 256;
      MatchesBytes(Crc(full[..|full| - 2]), payload[len - 2], payload[len - 1]);
      if calculated != received {
        return None;
      }
      var data := if len >= 4 then payload[2..len - 2] else [];
      r := Some(Response(payload[0], payload[1], data));
    }

    /** `receive_response`: one frame off the link, every fault giving `None`. Reading
        from a closed or absent connection raises, and the handler returns `None`
        without consuming anything. */
    method ReceiveResponse() returns (r: Option<Response>)
      modifies this
      ensures !old(connected) ==> r.None? && incoming == old(incoming)
      ensures old(connected) ==> r == Decode(old(incoming), isSerial).resp
      ensures old(connected) ==> incoming == Decode(old(incoming), isSerial).rest
      ensures sent == old(sent) && connected == old(connected) && linked == old(linked)
      ensures address == old(address)
    {
      if !connected {
        return None;
      }
      ghost var stream := incoming;
      var lenByte := ReadN(1);
      if |lenByte| == 0 {
        return None;
      }
      ghost var afterHead := incoming;
      var len := lenByte[0];
      if len < MinLength || len > MaxLength {
        BadLengthRejected(stream, isSerial);
        if isSerial {
          incoming := [];
        }
        return None;
      }
      var payload := ReadN(len);
      if |payload| < len {
        TruncatedRejected(stream, isSerial);
        return None;
      }
      TwoReads(stream, lenByte, afterHead, payload, incoming);
      DecodeWhole(stream, isSerial, payload, incoming);
      r := CheckFrame(len, payload);
    }

    /** One receive of the listen window: the tag its response carries, if any. */
    method ReceiveTag() returns (found: seq<Tag>)
      modifies this
      ensures !old(connected) ==> found == [] && incoming == old(incoming)
      ensures old(connected) ==> found == Found(Decode(old(incoming), isSerial))
      ensures old(connected) ==> incoming == Decode(old(incoming), isSerial).rest
      ensures sent == old(sent) && connected == old(connected) && address == old(address)
    {
      found := [];
      var resp := ReceiveResponse();
      if resp.Some? {
        var tag := ParseTag(resp.value);
        if tag.Some? {
          found := [tag.value];
        }
      }
    }

    /** The 500 ms window of `inventory_real_time` as `attempts` receives, turning
        each command-0x01 response into a tag. */
    method ListenWindow(attempts: nat) returns (tags: seq<Tag>)
      modifies this
      ensures !old(connected) ==> tags == [] && incoming == old(incoming)
      ensures old(connected) ==> tags == Listen(old(incoming), isSerial, attempts).0
      ensures old(connected) ==> incoming == Listen(old(incoming), isSerial, attempts).1
      ensures sent == old(sent) && connected == old(connected) && address == old(address)
    {
      ghost var total := Listen(incoming, isSerial, attempts);
      tags := [];
      var left := attempts;
      while left > 0
        invariant connected ==> total.0 == tags + Listen(incoming, isSerial, left).0
        invariant connected ==> total.1 == Listen(incoming, isSerial, left).1
        invariant !connected ==> tags == [] && incoming == old(incoming)
        invariant sent == old(sent) && connected == old(connected) && address == old(address)
      {
        ghost var later := Listen(Decode(incoming, isSerial).rest, isSerial, left - 1);
        ListenStep(incoming, isSerial, left);
        var found := ReceiveTag();
        TagsRegroup(tags, found, later.0);
        tags := tags + found;
        left := left - 1;
      }
    }

    /** `inventory_real_time`: writes the inventory command, then listens. */
    method InventoryRealTime(reply: seq<Byte>, attempts: nat) returns (r: Result<seq<Tag>, Failure>)
      modifies this
      ensures !old(connected) ==> r == Err(NotConnected) && sent == old(sent) && incoming == old(incoming)
      ensures old(connected) ==> r.Ok? && sent == old(sent) + InventoryFrame(address)
      ensures old(connected) ==>
        var waiting := (if isSerial then [] else old(incoming)) + reply;
        r.value == Listen(waiting, isSerial, attempts).0 && incoming == Listen(waiting, isSerial, attempts).1
      ensures connected == old(connected) && address == old(address)
    {
      var sentOk := SendCommand(0x01, [0x04, 0x00], reply);
      if sentOk.Err? {
        return Err(sentOk.error);
      }
      var tags := ListenWindow(attempts);
      r := Ok(tags);
    }

    /** `get_reader_information`: command 0x21 with no data, then one receive. */
    method GetReaderInformation(reply: seq<Byte>) returns (r: Result<Option<Response>, Failure>)
      modifies this
      ensures !old(connected) ==> r == Err(NotConnected) && sent == old(sent) && incoming == old(incoming)
      ensures old(connected) ==> sent == old(sent) + Encode(address, 0x21, []).value
      ensures old(connected) ==>
        var waiting := (if isSerial then [] else old(incoming)) + reply;
        r == Ok(Decode(waiting, isSerial).resp) && incoming == Decode(waiting, isSerial).rest
      ensures connected == old(connected) && address == old(address)
    {
      var sentOk := SendCommand(0x21, [], reply);
      if sentOk.Err? {
        return Err(sentOk.error);
      }
      var resp := ReceiveResponse();
      r := Ok(resp);
    }
  }
}
