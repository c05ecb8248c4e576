/** The connection choice shared, line for line, by `middleware.py` and
    `keyboard_wedge.py`: `--serial` wins over `--ip`, a missing or zero `--port` falls
    back to the baud rate 57600 (serial) or the TCP port 6000, and with neither
    argument the program returns without connecting. */
module Transport {
  import opened Wrappers

  const DefaultBaud := 57600
  const DefaultTcpPort := 6000

  /** Where and how to reach the reader. */
  datatype Mode = Mode(target: string, portOrBaud: int, isSerial: bool)

  /** Python truthiness of an optional string argument: present and non-empty. */
  predicate Given(arg: Option<string>)
  {
    arg.Some? && arg.value != []
  }

  /** `args.port if args.port else default`: `None` and `0` are both falsy. */
  function PortOr(port: Option<int>, default: int): (p: int)
    ensures port.Some? && port.value != 0 ==> p == port.value
    ensures port == None || port == Some(0) ==> p == default
  {
    if port.Some? && port.value != 0 then port.value else default
  }

  /** The `if args.serial: … elif args.ip: … else: return` block. */
  function SelectTransport(serial: Option<string>, ip: Option<string>, port: Option<int>): (m: Option<Mode>)
    ensures m.Some? <==> Given(serial) || Given(ip)
    ensures m.Some? ==> (m.value.isSerial <==> Given(serial))
    ensures m.Some? ==> m.value.target == if Given(serial) then serial.value else ip.value
    ensures m.Some? ==> m.value.portOrBaud == PortOr(port, if m.value.isSerial then DefaultBaud else DefaultTcpPort)
  {
    if Given(serial) then Some(Mode(serial.value, PortOr(port, DefaultBaud), true))
    else if Given(ip) then Some(Mode(ip.value, PortOr(port, DefaultTcpPort), false))
    else None
  }

  /** Serial wins: once a serial port is named, the IP argument makes no difference. */
  lemma SerialWins(serial: Option<string>, ip1: Option<string>, ip2: Option<string>, port: Option<int>)
    requires Given(serial)
    ensures SelectTransport(serial, ip1, port) == SelectTransport(serial, ip2, port)
    ensures SelectTransport(serial, ip1, port).value.isSerial
  {
  }

  /** Without `--port` the defaults apply: 57600 baud on serial, port 6000 on TCP. */
  lemma Defaults(serial: Option<string>, ip: Option<string>)
    requires Given(serial) || Given(ip)
    ensures var m := SelectTransport(serial, ip, None).value;
      m.portOrBaud == (if Given(serial) then 57600 else 6000)
  {
  }
}
