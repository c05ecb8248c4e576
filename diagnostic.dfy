/** The protocol probe of `diagnostic_e710.py`: the two's-complement checksum, the
    three framings it tries (A0 with a two's-complement checksum, A0 with CRC-16, and
    the raw frame), and the fixed order in which it tries them. */
module Diagnostic {
  import opened Wrappers
  import opened Hex
  import opened Crc16
  import opened Frame

  function Sum(data: seq<Byte>): int
  {
    if data == [] then 0 else Sum(data[..|data| - 1]) + data[|data| - 1]
  }

  /** `calculate_checksum`: `(0 - sum(data)) & 0xFF`. On Python's unbounded integers
      `& 0xFF` is the non-negative remainder modulo 256. */
  function TwosChecksum(data: seq<Byte>): (cs: Byte)
  {
    (0 - Sum(data)) % 256
  }

  /** The checksum byte makes the byte sum vanish modulo 256, and it is the only byte
      that does. */
  lemma TwosChecksumCancels(data: seq<Byte>, c: Byte)
    ensures (Sum(data) + TwosChecksum(data)) % 256 == 0
    ensures (Sum(data) + c) % 256 == 0 <==> c == TwosChecksum(data)
  {
    var s := Sum(data);
    var cs := TwosChecksum(data);
    var q := (0 - s) / 256;
    assert 0 - s == 256 * q + cs;
    assert s + cs == 256 * (0 - q);
    if (s + c) % 256 == 0 {
      var p := (s + c) / 256;
      assert c - cs == 256 * (p + q);
    }
  }

  /** How a probe frame is closed. */
  datatype Variant = A0Twos | A0Crc | Raw

  /** The address every probe uses (broadcast). */
  const Broadcast: Byte := 0xFF
  const A0Header: Byte := 0xA0

  /** The frame `test_protocol` writes for one variant. Python's `bytes` refuses a
      length byte above 255, so longer data gives no frame. */
  function Probe(v: Variant, cmd: Byte, data: seq<Byte>): (p: Option<seq<Byte>>)
  {
    match v
    case A0Twos =>
      if 2 + |data| > 255 then None
      else
        var packet := [A0Header, 2 + |data|, Broadcast, cmd] + data;
        Some(packet + [TwosChecksum(packet[1..])])
    case A0Crc =>
      if 2 + |data| > 255 then None
      else
        var packet := [A0Header, 2 + |data|, Broadcast, cmd] + data;
        var crc := Crc(packet[1..]);
        Some(packet + [Low(crc), High(crc)])
    case Raw =>
      if 4 + |data| > 255 then None
      else
        var packet := [4 + |data|, Broadcast, cmd] + data;
        var crc := Crc(packet);
        Some(packet + [Low(crc), High(crc)])
  }

  /** In the A0 framings the length byte counts the address, the command and the data
      but not the checksum: one checksum byte or two CRC bytes follow. */
  lemma A0LengthExcludesChecksum(cmd: Byte, data: seq<Byte>)
    requires 2 + |data| <= 255
    ensures var p := Probe(A0Twos, cmd, data).value;
      p[0] == A0Header && p[1] == |p| - 3 && p[2..|p| - 1] == [Broadcast, cmd] + data
    ensures var p := Probe(A0Crc, cmd, data).value;
      p[0] == A0Header && p[1] == |p| - 4 && p[2..|p| - 2] == [Broadcast, cmd] + data
    ensures var p := Probe(A0Twos, cmd, data).value;
      (Sum(p[1..|p| - 1]) + p[|p| - 1]) % 256 == 0
  {
    var p := Probe(A0Twos, cmd, data).value;
    var packet := [A0Header, 2 + |data|, Broadcast, cmd] + data;
    assert p[1..|p| - 1] == packet[1..];
    TwosChecksumCancels(packet[1..], 0);
    var q := Probe(A0Crc, cmd, data).value;
    assert q[2..|q| - 2] == [Broadcast, cmd] + data;
  }

  /** The raw variant is the driver's frame addressed to the broadcast address. */
  lemma RawIsDriverFrame(cmd: Byte, data: seq<Byte>)
    ensures Probe(Raw, cmd, data) == Encode(Broadcast, cmd, data)
  {
  }

  /** The two A0 variants carry the same packet and differ only in the check bytes. */
  lemma A0VariantsShareBody(cmd: Byte, data: seq<Byte>)
    requires 2 + |data| <= 255
    ensures var t := Probe(A0Twos, cmd, data).value;
      var c := Probe(A0Crc, cmd, data).value;
      |c| == |t| + 1 && c[..|t| - 1] == t[..|t| - 1]
  {
  }

  /** `test_protocol`: builds the frame with the shared CRC routine, writes it, and
      reports whether any bytes were waiting afterwards (`waiting` is the
      `in_waiting` count the port reports). */
  method TestProtocol(v: Variant, cmd: Byte, data: seq<Byte>, waiting: nat) returns (packet: seq<Byte>, answered: bool)
    requires Probe(v, cmd, data).Some?
    ensures packet == Probe(v, cmd, data).value
    ensures answered <==> waiting > 0
  {
    match v {
      case A0Twos =>
        var lenByte: Byte := 2 + |data|;
        var head: seq<Byte> := [A0Header, lenByte, Broadcast, cmd] + data;
        packet := head + [TwosChecksum(head[1..])];
      case A0Crc =>
        var lenByte: Byte := 2 + |data|;
        var head: seq<Byte> := [A0Header, lenByte, Broadcast, cmd] + data;
        var crc := Checksum(head[1..]);
        LowHigh(Crc(head[1..]));
        packet := head + [crc % 256, crc / 256];
      case Raw =>
        var lenByte: Byte := 4 + |data|;
        var head: seq<Byte> := [lenByte, Broadcast, cmd] + data;
        var crc := Checksum(head);
        LowHigh(Crc(head));
        packet := head + [crc % 256, crc / 256];
    }
    answered := waiting > 0;
  }

  /** The commands `main` tries: get reader information (0x21, no data) and fast
      inventory (0x51 with target A). */
  const Commands: seq<(Byte, seq<Byte>)> := [(0x21, []), (0x51, [0x00])]
  const Variants: seq<Variant> := [A0Twos, A0Crc, Raw]

  /** The six probes in the order `main` writes them. */
  function Plan(): (plan: seq<(Variant, Byte, seq<Byte>)>)
    ensures |plan| == |Commands| * |Variants|
  {
    [ (A0Twos, 0x21, []), (A0Crc, 0x21, []), (Raw, 0x21, []),
      (A0Twos, 0x51, [0x00]), (A0Crc, 0x51, [0x00]), (Raw, 0x51, [0x00]) ]
  }

  /** `main`: when the port opens, every command is tried in every variant, the
      commands in order and, for each, A0 with two's complement, then A0 with CRC-16,
      then raw. `waiting[k]` is what the port reports after probe k. */
  method RunDiagnostic(portOpen: bool, waiting: seq<nat>) returns (written: seq<seq<Byte>>)
    requires |waiting| == |Commands| * |Variants|
    ensures !portOpen ==> written == []
    ensures portOpen ==> |written| == |Plan()|
    ensures portOpen ==> forall k :: 0 <= k < |written| ==>
      written[k] == Probe(Plan()[k].0, Plan()[k].1, Plan()[k].2).value
  {
    written := [];
    if !portOpen {
      return;
    }
    for c := 0 to |Commands|
      invariant |written| == c * |Variants|
      invariant forall k :: 0 <= k < |written| ==>
        written[k] == Probe(Plan()[k].0, Plan()[k].1, Plan()[k].2).value
    {
      var (cmd, data) := Commands[c];
      for j := 0 to |Variants|
        invariant |written| == c * |Variants| + j
        invariant forall k :: 0 <= k < |written| ==>
          written[k] == Probe(Plan()[k].0, Plan()[k].1, Plan()[k].2).value
      {
        assert Plan()[c * |Variants| + j] == (Variants[j], cmd, data);
        var packet, _ := TestProtocol(Variants[j], cmd, data, waiting[c * |Variants| + j]);
        written := written + [packet];
      }
    }
  }

  /** The first probe on the wire: `A0 02 FF 21 DE`. */
  lemma FirstProbe()
    ensures Probe(A0Twos, 0x21, []) == Some([0xA0, 0x02, 0xFF, 0x21, 0xDE])
  {
    var packet: seq<Byte> := [A0Header, 2, Broadcast, 0x21];
    var body: seq<Byte> := [0x02, 0xFF, 0x21];
    assert packet[1..] == body;
    var one: seq<Byte> := [0x02];
    var two: seq<Byte> := [0x02, 0xFF];
    assert one[..0] == [];
    assert Sum(one) == 0x02;
    assert two[..1] == one;
    assert Sum(two) == 0x101;
    assert body[..2] == two;
    assert Sum(body) == 0x122;
    assert TwosChecksum(body) == 0xDE;
    var none: seq<Byte> := [];
    assert packet + none == packet;
    assert Probe(A0Twos, 0x21, none) == Some(packet + [0xDE]);
    assert packet + [0xDE] == [0xA0, 0x02, 0xFF, 0x21, 0xDE];
  }
}
