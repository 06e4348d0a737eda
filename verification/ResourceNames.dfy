/** VISA resource names and their canonical forms. */
module ResourceNames {
  import opened NameParts
  import opened Numerals
  import opened Text
  import opened Visa

  const MAX_NAME := 256
  const MAX_NUMBER := 0xFFFF
  const MAX_ADDRESS := 30
  const MOCK_RESOURCE := "WRVISA0::MOCK::INSTR"

  datatype Kind = AsrlInstr | GpibInstr | GpibIntfc | TcpipInstr | TcpipSocket | UsbInstr | UsbRaw | ProjectMock

  datatype Protocol = NoProtocol | Vxi11 | Hislip | Unsupported

  datatype Descriptor = Descriptor(
    kind: Kind,
    interfaceType: nat,
    interfaceNumber: nat,
    resourceClass: string,
    canonicalName: string,
    host: string,
    port: nat,
    deviceName: string,
    protocol: Protocol,
    usbVendor: nat,
    usbProduct: nat,
    usbSerial: string,
    usbInterface: nat,
    gpibPrimary: nat,
    gpibSecondary: nat,
    gpibHasSecondary: bool)

  function Plain(kind: Kind, interfaceType: nat, number: nat, resourceClass: string,
                 canonicalName: string): Descriptor {
    Descriptor(kind, interfaceType, number, resourceClass, canonicalName, "", 0, "", NoProtocol, 0, 0, "", 0, 0, 0, false)
  }

  predicate StartsWith(s: string, prefix: string) {
    |prefix| <= |s| && s[..|prefix|] == prefix
  }

  /** `parse_decimal`. */
  function ParseDecimal(value: string, maximum: nat): Option<nat> {
    var parsed := NumeralValue(value, 10);
    if parsed.Some? && parsed.value <= maximum then parsed else None
  }

  /** `parse_hex_id`: `0x` and four digits. */
  function ParseHexId(value: string): Option<nat> {
    if |value| != 6 || value[0] != '0' || (value[1] != 'x' && value[1] != 'X') then None
    else
      var parsed := NumeralValue(value[2..], 16);
      if parsed.Some? && parsed.value <= MAX_NUMBER then parsed else None
  }

  /** `parse_prefix`: an interface name and a board number, which may be missing. */
  function ParsePrefix(token: string, name: string): Option<nat> {
    if |token| < |name| || Upper(token[..|name|]) != name then None
    else if |token| == |name| then Some(0)
    else ParseDecimal(token[|name|..], MAX_NUMBER)
  }

  function Prefix(name: string, board: nat): string {
    name + Numeral(board, 10)
  }

  predicate Alphanumeric(s: string) {
    forall k :: 0 <= k < |s| ==> 'A' <= s[k] <= 'Z' || 'a' <= s[k] <= 'z' || '0' <= s[k] <= '9'
  }

  function TcpipProtocol(device: string): Protocol {
    var name := Upper(device);
    if StartsWith(name, "HISLIP") then
      if |name| == 6 || !Alphanumeric(name[6..]) then Unsupported else Hislip
    else if StartsWith(name, "INST") || StartsWith(name, "VXI") || StartsWith(name, "GPIB") then Vxi11
    else Unsupported
  }

  function AsrlParts(board: nat): seq<string> {
    [Prefix("ASRL", board), "INSTR"]
  }

  function ParseAsrl(parts: seq<string>): Option<Descriptor>
    requires parts != []
  {
    var board := ParsePrefix(parts[0], "ASRL");
    if board.None? || |parts| > 2 || (|parts| == 2 && Upper(parts[1]) != "INSTR") then None
    else Some(Plain(AsrlInstr, 4, board.value, "INSTR", Join(AsrlParts(board.value))))
  }

  function IntfcParts(board: nat): seq<string> {
    [Prefix("GPIB", board), "INTFC"]
  }

  function GpibParts(board: nat, primary: nat, secondary: Option<nat>): seq<string> {
    if secondary.Some? then [Prefix("GPIB", board), Numeral(primary, 10), Numeral(secondary.value, 10), "INSTR"]
    else [Prefix("GPIB", board), Numeral(primary, 10), "INSTR"]
  }

  function GpibDescriptor(board: nat, primary: nat, secondary: Option<nat>): Descriptor {
    Plain(GpibInstr, 1, board, "INSTR", Join(GpibParts(board, primary, secondary)))
      .(gpibPrimary := primary, gpibHasSecondary := secondary.Some?,
        gpibSecondary := if secondary.Some? then secondary.value else 0)
  }

  function ParseGpib(parts: seq<string>): Option<Descriptor>
    requires parts != []
  {
    var board := ParsePrefix(parts[0], "GPIB");
    if board.None? || |parts| < 2 || |parts| > 4 then None
    else if |parts| == 2 && Upper(parts[1]) == "INTFC" then
      Some(Plain(GpibIntfc, 1, board.value, "INTFC", Join(IntfcParts(board.value))))
    else
      var primary := ParseDecimal(parts[1], MAX_ADDRESS);
      if primary.None? then None
      else
        var named := |parts| >= 3 && Upper(parts[2]) != "INSTR";
        var secondary := if named then ParseDecimal(parts[2], MAX_ADDRESS) else None;
        if named && secondary.None? then None
        else
          var expected := if secondary.Some? then 4 else 3;
          if |parts| == expected && Upper(parts[|parts| - 1]) != "INSTR" then None
          else if |parts| > expected || (|parts| == 4 && secondary.None?) then None
          else Some(GpibDescriptor(board.value, primary.value, secondary))
  }

  /** The host between the brackets of a literal address, or a host that needs none. */
  function HostOf(display: string): string {
    if |display| >= 2 && display[0] == '[' && display[|display| - 1] == ']' then display[1..|display| - 1]
    else if ':' in display then ""
    else display
  }

  function SocketParts(board: nat, display: string, port: nat): seq<string> {
    [Prefix("TCPIP", board), display, Numeral(port, 10), "SOCKET"]
  }

  function DeviceParts(board: nat, display: string, device: string): seq<string> {
    [Prefix("TCPIP", board), display, device, "INSTR"]
  }

  function SocketDescriptor(board: nat, display: string, port: nat): Descriptor {
    Plain(TcpipSocket, 6, board, "SOCKET", Join(SocketParts(board, display, port))).(host := HostOf(display), port := port)
  }

  function DeviceDescriptor(board: nat, display: string, device: string): Descriptor {
    Plain(TcpipInstr, 6, board, "INSTR", Join(DeviceParts(board, display, device)))
      .(host := HostOf(display), deviceName := device, protocol := TcpipProtocol(device))
  }

  function ParseTcpip(parts: seq<string>): Option<Descriptor>
    requires parts != []
  {
    var board := ParsePrefix(parts[0], "TCPIP");
    if board.None? || |parts| < 2 || |parts| > 4 || parts[1] == "" || HostOf(parts[1]) == "" then None
    else if |parts| == 4 && Upper(parts[3]) == "SOCKET" then
      var port := ParseDecimal(parts[2], MAX_NUMBER);
      if port.None? || port.value == 0 then None else Some(SocketDescriptor(board.value, parts[1], port.value))
    else if |parts| == 4 && Upper(parts[3]) != "INSTR" then None
    else
      var device := if |parts| == 4 || (|parts| == 3 && Upper(parts[2]) != "INSTR") then parts[2] else "inst0";
      Some(DeviceDescriptor(board.value, parts[1], device))
  }

  function HexId(id: nat): string
    requires id < 0x1_0000
  {
    "0x" + HexField(id)
  }

  function UsbClass(raw: bool): string {
    if raw then "RAW" else "INSTR"
  }

  function UsbParts(board: nat, vendor: nat, product: nat, serial: string, number: nat, raw: bool): seq<string>
    requires vendor < 0x1_0000 && product < 0x1_0000
  {
    [Prefix("USB", board), HexId(vendor), HexId(product), serial, Numeral(number, 10), UsbClass(raw)]
  }

  function UsbDescriptor(board: nat, vendor: nat, product: nat, serial: string, number: nat, raw: bool): Descriptor
    requires vendor < 0x1_0000 && product < 0x1_0000
  {
    Plain(if raw then UsbRaw else UsbInstr, 7, board, UsbClass(raw), Join(UsbParts(board, vendor, product, serial, number, raw)))
      .(usbVendor := vendor, usbProduct := product, usbSerial := serial, usbInterface := number)
  }

  function ParseUsb(parts: seq<string>): Option<Descriptor>
    requires parts != []
  {
    var board := ParsePrefix(parts[0], "USB");
    if board.None? || |parts| < 4 || |parts| > 6 then None
    else
      var vendor, product := ParseHexId(parts[1]), ParseHexId(parts[2]);
      if vendor.None? || product.None? || parts[3] == "" then None
      else
        var hasInterface := |parts| >= 5 && Upper(parts[4]) != "INSTR" && Upper(parts[4]) != "RAW";
        var number := if hasInterface then ParseDecimal(parts[4], MAX_NUMBER) else Some(0);
        var classIndex := if hasInterface then 5 else 4;
        if number.None? then None
        else if |parts| > classIndex && Upper(parts[classIndex]) != "INSTR" && Upper(parts[classIndex]) != "RAW" then None
        else if |parts| > classIndex + 1 || (|parts| == 6 && !hasInterface) then None
        else
          var raw := |parts| > classIndex && Upper(parts[classIndex]) == "RAW";
          Some(UsbDescriptor(board.value, vendor.value, product.value, parts[3], number.value, raw))
  }

  function ParseParts(parts: seq<string>): Option<Descriptor>
    requires parts != []
  {
    var first := Upper(parts[0]);
    if StartsWith(first, "ASRL") then ParseAsrl(parts)
    else if StartsWith(first, "GPIB") then ParseGpib(parts)
    else if StartsWith(first, "TCPIP") then ParseTcpip(parts)
    else if StartsWith(first, "USB") then ParseUsb(parts)
    else None
  }

  /** `parse_resource`. */
  function ParseResource(value: string): Option<Descriptor> {
    if value == "" || |value| >= MAX_NAME then None
    else if Upper(value) == MOCK_RESOURCE then Some(Plain(ProjectMock, 0x8000, 0, "INSTR", MOCK_RESOURCE))
    else
      var parts := Split(value);
      if parts == [] then None else ParseParts(parts)
  }

  // Which names are accepted

  /** A keyword, in any case. */
  predicate Is(part: string, word: string) {
    Upper(part) == word
  }

  lemma DecimalIsNoWord(value: string, maximum: nat)
    requires ParseDecimal(value, maximum).Some?
    ensures !Is(value, "INTFC") && !Is(value, "INSTR") && !Is(value, "RAW")
  {
    var last := value[|value| - 1];
    assert '0' <= last <= '9';
    assert Upper(value)[|value| - 1] == last;
  }

  /** A board and a primary address, perhaps a secondary address, perhaps the class. */
  lemma GpibAccepts(parts: seq<string>, board: nat, primary: nat, secondary: Option<nat>)
    requires parts != []
    ensures ParseGpib(parts) == Some(GpibDescriptor(board, primary, secondary)) <==>
            && ParsePrefix(parts[0], "GPIB") == Some(board)
            && |parts| >= 2 && ParseDecimal(parts[1], MAX_ADDRESS) == Some(primary)
            && (secondary.None? ==> |parts| == 2 || (|parts| == 3 && Is(parts[2], "INSTR")))
            && (secondary.Some? ==>
                  && (|parts| == 3 || (|parts| == 4 && Is(parts[3], "INSTR")))
                  && ParseDecimal(parts[2], MAX_ADDRESS) == secondary)
  {
    if |parts| >= 2 && ParseDecimal(parts[1], MAX_ADDRESS).Some? {
      DecimalIsNoWord(parts[1], MAX_ADDRESS);
    }
    if |parts| >= 3 && ParseDecimal(parts[2], MAX_ADDRESS).Some? {
      DecimalIsNoWord(parts[2], MAX_ADDRESS);
    }
  }

  /** A board and a host, perhaps a device that is not the class, perhaps the class. */
  lemma DeviceAccepts(parts: seq<string>, board: nat, device: string)
    requires |parts| >= 2
    ensures ParseTcpip(parts) == Some(DeviceDescriptor(board, parts[1], device)) <==>
            && ParsePrefix(parts[0], "TCPIP") == Some(board) && HostOf(parts[1]) != ""
            && (|| (device == "inst0" && (|parts| == 2 || (|parts| == 3 && Is(parts[2], "INSTR"))))
                || (|parts| == 3 && !Is(parts[2], "INSTR") && device == parts[2])
                || (|parts| == 4 && Is(parts[3], "INSTR") && device == parts[2]))
  {
  }

  /** A board, two ids and a serial number, perhaps an interface number, perhaps a class. */
  lemma UsbAccepts(parts: seq<string>, board: nat, vendor: nat, product: nat, number: nat, raw: bool)
    requires |parts| >= 4 && vendor < 0x1_0000 && product < 0x1_0000
    ensures ParseUsb(parts) == Some(UsbDescriptor(board, vendor, product, parts[3], number, raw)) <==>
            && ParsePrefix(parts[0], "USB") == Some(board) && parts[3] != ""
            && ParseHexId(parts[1]) == Some(vendor) && ParseHexId(parts[2]) == Some(product)
            && (|| (|parts| == 4 && number == 0 && !raw)
                || (|parts| == 5 && number == 0 && Is(parts[4], UsbClass(raw)))
                || (|parts| == 5 && ParseDecimal(parts[4], MAX_NUMBER) == Some(number) && !raw)
                || (|parts| == 6 && ParseDecimal(parts[4], MAX_NUMBER) == Some(number) && Is(parts[5], UsbClass(raw))))
  {
    if |parts| >= 5 && ParseDecimal(parts[4], MAX_NUMBER).Some? {
      DecimalIsNoWord(parts[4], MAX_NUMBER);
    }
    assert |"INSTR"| != |"RAW"|;
  }

  // Canonical names

  /** Text without anything that matters to `split`. */
  predicate Simple(part: string) {
    part != "" && forall k :: 0 <= k < |part| ==> part[k] != ':' && part[k] != '[' && part[k] != ']'
  }

  lemma {:induction false} SimpleBrackets(part: string)
    requires forall k :: 0 <= k < |part| ==> part[k] != ':' && part[k] != '[' && part[k] != ']'
    ensures Bracketed(part) == Some(false)
  {
    if part != "" {
      SimpleBrackets(part[..|part| - 1]);
    }
  }

  lemma SimpleIsWhole(part: string)
    requires Simple(part)
    ensures Whole(part) && !EndsInColon(part)
  {
    SimpleBrackets(part);
  }

  lemma NumeralIsSimple(n: nat)
    ensures Simple(Numeral(n, 10))
  {
    NumeralDigits(n, 10);
  }

  lemma PrefixIsSimple(name: string, board: nat)
    requires Simple(name)
    ensures Simple(Prefix(name, board))
  {
    NumeralIsSimple(board);
  }

  lemma HexIdIsSimple(id: nat)
    requires id < 0x1_0000
    ensures Simple(HexId(id))
  {
    HexFieldDigits(id);
  }

  lemma UpperFixed(s: string)
    requires forall k :: 0 <= k < |s| ==> !('a' <= s[k] <= 'z')
    ensures Upper(s) == s
  {
  }

  lemma DecimalRoundTrip(n: nat, maximum: nat)
    requires n <= maximum
    ensures ParseDecimal(Numeral(n, 10), maximum) == Some(n)
  {
    NumeralRoundTrip(n, 10);
  }

  lemma HexIdRoundTrip(id: nat)
    requires id < 0x1_0000
    ensures ParseHexId(HexId(id)) == Some(id)
  {
    HexFieldRoundTrip(id);
    assert HexId(id)[2..] == HexField(id);
  }

  lemma PrefixRoundTrip(name: string, board: nat)
    requires board <= MAX_NUMBER && forall k :: 0 <= k < |name| ==> !('a' <= name[k] <= 'z')
    ensures ParsePrefix(Prefix(name, board), name) == Some(board)
  {
    var token := Prefix(name, board);
    assert token[..|name|] == name && token[|name|..] == Numeral(board, 10);
    UpperFixed(name);
    DecimalRoundTrip(board, MAX_NUMBER);
  }

  lemma PrefixBounded(token: string, name: string)
    requires ParsePrefix(token, name).Some?
    ensures ParsePrefix(token, name).value <= MAX_NUMBER
  {
  }

  lemma {:induction false} NumeralLength(n: nat, digits: nat)
    requires digits > 0 && (digits < 5 ==> n < [1, 10, 100, 1000, 10000][digits]) && (digits >= 5 ==> n < 100000)
    ensures |Numeral(n, 10)| <= digits
    decreases digits
  {
    if n >= 10 {
      NumeralLength(n / 10, if digits > 5 then 4 else digits - 1);
    }
  }

  lemma {:induction false} JoinStarts(parts: seq<string>)
    requires parts != [] && parts[0] != ""
    ensures Join(parts) != "" && Join(parts)[0] == parts[0][0]
  {
  }

  lemma {:induction false} JoinEnds(parts: seq<string>)
    requires parts != [] && parts[|parts| - 1] != ""
    ensures EndsInColon(Join(parts)) <==> EndsInColon(parts[|parts| - 1])
  {
    if |parts| > 1 {
      JoinEnds(parts[1..]);
      JoinNonEmpty(parts[1..]);
    }
  }

  lemma {:induction false} JoinNonEmpty(parts: seq<string>)
    requires parts != [] && parts[|parts| - 1] != ""
    ensures Join(parts) != ""
  {
  }

  /** Parsing a name that was joined from good parts is parsing the parts. */
  lemma ParseJoined(parts: seq<string>)
    requires GoodParts(parts) && |Join(parts)| < MAX_NAME && Fold(parts[0][0]) != 'W'
    ensures ParseResource(Join(parts)) == ParseParts(parts)
  {
    assert Whole(parts[0]);
    JoinStarts(parts);
    SplitExact(Join(parts), parts);
    assert Upper(Join(parts))[0] != MOCK_RESOURCE[0];
  }

  lemma UpperPrefix(name: string, board: nat)
    requires forall k :: 0 <= k < |name| ==> !('a' <= name[k] <= 'z')
    ensures StartsWith(Upper(Prefix(name, board)), name)
    ensures name != "" ==> Upper(Prefix(name, board))[0] == name[0] && Fold(Prefix(name, board)[0]) == name[0]
  {
  }

  lemma DispatchAsrl(parts: seq<string>, board: nat)
    requires parts != [] && parts[0] == Prefix("ASRL", board)
    ensures ParseParts(parts) == ParseAsrl(parts) && Fold(parts[0][0]) != 'W'
  {
    UpperPrefix("ASRL", board);
  }

  lemma DispatchGpib(parts: seq<string>, board: nat)
    requires parts != [] && parts[0] == Prefix("GPIB", board)
    ensures ParseParts(parts) == ParseGpib(parts) && Fold(parts[0][0]) != 'W'
  {
    UpperPrefix("GPIB", board);
    assert Upper(parts[0])[..4][0] != "ASRL"[0];
  }

  lemma DispatchTcpip(parts: seq<string>, board: nat)
    requires parts != [] && parts[0] == Prefix("TCPIP", board)
    ensures ParseParts(parts) == ParseTcpip(parts) && Fold(parts[0][0]) != 'W'
  {
    UpperPrefix("TCPIP", board);
    assert Upper(parts[0])[..4][0] != "ASRL"[0] && Upper(parts[0])[..4][0] != "GPIB"[0];
  }

  lemma DispatchUsb(parts: seq<string>, board: nat)
    requires parts != [] && parts[0] == Prefix("USB", board)
    ensures ParseParts(parts) == ParseUsb(parts) && Fold(parts[0][0]) != 'W'
  {
    UpperPrefix("USB", board);
    assert Upper(parts[0])[0] == 'U';
    assert |Upper(parts[0])| >= 4 ==> Upper(parts[0])[..4][0] != "ASRL"[0] && Upper(parts[0])[..4][0] != "GPIB"[0];
    assert |Upper(parts[0])| >= 5 ==> Upper(parts[0])[..5][0] != "TCPIP"[0];
  }

  // Each family reads its own canonical parts

  lemma AsrlFixpoint(board: nat)
    requires board <= MAX_NUMBER
    ensures var parts := AsrlParts(board);
            GoodParts(parts) && ParseParts(parts) == Some(Plain(AsrlInstr, 4, board, "INSTR", Join(parts)))
  {
    var parts := AsrlParts(board);
    PrefixIsSimple("ASRL", board);
    SimpleIsWhole(parts[0]);
    SimpleIsWhole("INSTR");
    PrefixRoundTrip("ASRL", board);
    UpperFixed("INSTR");
    DispatchAsrl(parts, board);
  }

  lemma IntfcFixpoint(board: nat)
    requires board <= MAX_NUMBER
    ensures var parts := IntfcParts(board);
            GoodParts(parts) && ParseParts(parts) == Some(Plain(GpibIntfc, 1, board, "INTFC", Join(parts)))
  {
    var parts := IntfcParts(board);
    PrefixIsSimple("GPIB", board);
    SimpleIsWhole(parts[0]);
    SimpleIsWhole("INTFC");
    PrefixRoundTrip("GPIB", board);
    UpperFixed("INTFC");
    DispatchGpib(parts, board);
  }

  /** A numeral is none of the words. */
  lemma NumeralIsNoWord(n: nat, word: string)
    requires word != "" && 'A' <= word[0] <= 'Z'
    ensures Upper(Numeral(n, 10)) != word
  {
    NumeralRoundTrip(n, 10);
    NumeralIsDecimal(n);
    assert Upper(Numeral(n, 10))[0] == Fold(Numeral(n, 10)[0]);
  }

  lemma {:induction false} NumeralIsDecimal(n: nat)
    ensures forall k :: 0 <= k < |Numeral(n, 10)| ==> '0' <= Numeral(n, 10)[k] <= '9'
  {
    if n >= 10 {
      NumeralIsDecimal(n / 10);
    }
  }

  lemma GpibGood(board: nat, primary: nat, secondary: Option<nat>)
    ensures GoodParts(GpibParts(board, primary, secondary))
  {
    PrefixIsSimple("GPIB", board);
    SimpleIsWhole(Prefix("GPIB", board));
    NumeralIsSimple(primary);
    SimpleIsWhole(Numeral(primary, 10));
    SimpleIsWhole("INSTR");
    if secondary.Some? {
      NumeralIsSimple(secondary.value);
      SimpleIsWhole(Numeral(secondary.value, 10));
    }
  }

  lemma GpibFixpoint(board: nat, primary: nat, secondary: Option<nat>)
    requires board <= MAX_NUMBER && primary <= MAX_ADDRESS && (secondary.Some? ==> secondary.value <= MAX_ADDRESS)
    ensures ParseParts(GpibParts(board, primary, secondary)) == Some(GpibDescriptor(board, primary, secondary))
  {
    var parts := GpibParts(board, primary, secondary);
    PrefixRoundTrip("GPIB", board);
    DecimalRoundTrip(primary, MAX_ADDRESS);
    UpperFixed("INSTR");
    if secondary.Some? {
      DecimalRoundTrip(secondary.value, MAX_ADDRESS);
      NumeralIsNoWord(secondary.value, "INSTR");
    }
    DispatchGpib(parts, board);
  }

  lemma SocketFromParts(parts: seq<string>, board: nat, port: nat)
    requires |parts| == 4 && ParsePrefix(parts[0], "TCPIP") == Some(board) && parts[1] != "" && HostOf(parts[1]) != ""
    requires ParseDecimal(parts[2], MAX_NUMBER) == Some(port) && port != 0 && Upper(parts[3]) == "SOCKET"
    ensures ParseTcpip(parts) == Some(SocketDescriptor(board, parts[1], port))
  {
  }

  lemma SocketFixpoint(board: nat, display: string, port: nat)
    requires board <= MAX_NUMBER && 0 < port <= MAX_NUMBER && display != "" && HostOf(display) != ""
    ensures ParseParts(SocketParts(board, display, port)) == Some(SocketDescriptor(board, display, port))
  {
    PrefixRoundTrip("TCPIP", board);
    DecimalRoundTrip(port, MAX_NUMBER);
    UpperFixed("SOCKET");
    SocketFromParts(SocketParts(board, display, port), board, port);
    DispatchTcpip(SocketParts(board, display, port), board);
  }

  lemma DeviceFixpoint(board: nat, display: string, device: string)
    requires board <= MAX_NUMBER && display != "" && HostOf(display) != ""
    ensures ParseParts(DeviceParts(board, display, device)) == Some(DeviceDescriptor(board, display, device))
  {
    PrefixRoundTrip("TCPIP", board);
    UpperFixed("INSTR");
    DispatchTcpip(DeviceParts(board, display, device), board);
  }

  /** A host that is accepted does not end in a colon. */
  lemma HostEnd(display: string)
    requires display != "" && HostOf(display) != ""
    ensures !EndsInColon(display)
  {
  }

  lemma TcpipGood(board: nat, display: string, third: string, last: string)
    requires Whole(display) && HostOf(display) != "" && Whole(third) && !EndsInColon(third) && Simple(last)
    ensures GoodParts([Prefix("TCPIP", board), display, third, last])
  {
    PrefixIsSimple("TCPIP", board);
    SimpleIsWhole(Prefix("TCPIP", board));
    HostEnd(display);
    SimpleIsWhole(last);
  }

  lemma UsbFromParts(parts: seq<string>, board: nat, vendor: nat, product: nat, number: nat, raw: bool)
    requires |parts| == 6 && ParsePrefix(parts[0], "USB") == Some(board) && parts[3] != ""
    requires vendor < 0x1_0000 && product < 0x1_0000
    requires ParseHexId(parts[1]) == Some(vendor) && ParseHexId(parts[2]) == Some(product)
    requires ParseDecimal(parts[4], MAX_NUMBER) == Some(number) && Upper(parts[4]) != "INSTR"
    requires Upper(parts[4]) != "RAW"
    requires Upper(parts[5]) == UsbClass(raw)
    ensures ParseUsb(parts) == Some(UsbDescriptor(board, vendor, product, parts[3], number, raw))
  {
    assert raw <==> Upper(parts[5]) == "RAW" by {
      assert |"INSTR"| != |"RAW"|;
    }
  }

  lemma UsbFixpoint(board: nat, vendor: nat, product: nat, serial: string, number: nat, raw: bool)
    requires board <= MAX_NUMBER && vendor < 0x1_0000 && product < 0x1_0000 && serial != "" && number <= MAX_NUMBER
    ensures ParseParts(UsbParts(board, vendor, product, serial, number, raw)) ==
            Some(UsbDescriptor(board, vendor, product, serial, number, raw))
  {
    PrefixRoundTrip("USB", board);
    HexIdRoundTrip(vendor);
    HexIdRoundTrip(product);
    DecimalRoundTrip(number, MAX_NUMBER);
    NumeralIsNoWord(number, "INSTR");
    NumeralIsNoWord(number, "RAW");
    UpperFixed("INSTR");
    UpperFixed("RAW");
    UsbFromParts(UsbParts(board, vendor, product, serial, number, raw), board, vendor, product, number, raw);
    DispatchUsb(UsbParts(board, vendor, product, serial, number, raw), board);
  }

  lemma UsbGood(board: nat, vendor: nat, product: nat, serial: string, number: nat, raw: bool)
    requires vendor < 0x1_0000 && product < 0x1_0000 && Whole(serial) && !EndsInColon(serial)
    ensures GoodParts(UsbParts(board, vendor, product, serial, number, raw))
  {
    PrefixIsSimple("USB", board);
    SimpleIsWhole(Prefix("USB", board));
    HexIdIsSimple(vendor);
    SimpleIsWhole(HexId(vendor));
    HexIdIsSimple(product);
    SimpleIsWhole(HexId(product));
    NumeralIsSimple(number);
    SimpleIsWhole(Numeral(number, 10));
    SimpleIsWhole(UsbClass(raw));
  }

  // What a name that parses looks like

  lemma AsrlRead(parts: seq<string>) returns (board: nat)
    requires parts != [] && ParseAsrl(parts).Some?
    ensures board <= MAX_NUMBER && ParseAsrl(parts) == Some(Plain(AsrlInstr, 4, board, "INSTR", Join(AsrlParts(board))))
  {
    PrefixBounded(parts[0], "ASRL");
    board := ParsePrefix(parts[0], "ASRL").value;
  }

  lemma GpibRead(parts: seq<string>) returns (board: nat, primary: nat, secondary: Option<nat>)
    requires parts != [] && ParseGpib(parts).Some?
    ensures board <= MAX_NUMBER && primary <= MAX_ADDRESS && (secondary.Some? ==> secondary.value <= MAX_ADDRESS)
    ensures ParseGpib(parts) == Some(Plain(GpibIntfc, 1, board, "INTFC", Join(IntfcParts(board))))
            || ParseGpib(parts) == Some(GpibDescriptor(board, primary, secondary))
  {
    PrefixBounded(parts[0], "GPIB");
    board, primary, secondary := ParsePrefix(parts[0], "GPIB").value, 0, None;
    if !(|parts| == 2 && Upper(parts[1]) == "INTFC") {
      primary := ParseDecimal(parts[1], MAX_ADDRESS).value;
      secondary := if |parts| >= 3 && Upper(parts[2]) != "INSTR" then ParseDecimal(parts[2], MAX_ADDRESS) else None;
    }
  }

  lemma TcpipRead(parts: seq<string>) returns (board: nat, port: nat, device: string)
    requires GoodParts(parts) && ParseTcpip(parts).Some?
    ensures |parts| >= 2 && board <= MAX_NUMBER && Whole(parts[1]) && HostOf(parts[1]) != "" && Whole(device)
    ensures EndsInColon(device) ==> EndsInColon(parts[|parts| - 1])
    ensures (0 < port <= MAX_NUMBER && ParseTcpip(parts) == Some(SocketDescriptor(board, parts[1], port)))
            || ParseTcpip(parts) == Some(DeviceDescriptor(board, parts[1], device))
  {
    PrefixBounded(parts[0], "TCPIP");
    board, port, device := ParsePrefix(parts[0], "TCPIP").value, 0, "inst0";
    SimpleIsWhole("inst0");
    if |parts| == 4 && Upper(parts[3]) == "SOCKET" {
      port := ParseDecimal(parts[2], MAX_NUMBER).value;
    } else if |parts| == 4 || (|parts| == 3 && Upper(parts[2]) != "INSTR") {
      device := parts[2];
    }
  }

  lemma UsbRead(parts: seq<string>) returns (board: nat, vendor: nat, product: nat, number: nat, raw: bool)
    requires GoodParts(parts) && ParseUsb(parts).Some?
    ensures |parts| >= 4 && board <= MAX_NUMBER && vendor < 0x1_0000 && product < 0x1_0000 && number <= MAX_NUMBER
    ensures Whole(parts[3]) && (EndsInColon(parts[3]) ==> EndsInColon(parts[|parts| - 1]))
    ensures ParseUsb(parts) == Some(UsbDescriptor(board, vendor, product, parts[3], number, raw))
  {
    PrefixBounded(parts[0], "USB");
    board := ParsePrefix(parts[0], "USB").value;
    vendor, product := ParseHexId(parts[1]).value, ParseHexId(parts[2]).value;
    var hasInterface := |parts| >= 5 && Upper(parts[4]) != "INSTR" && Upper(parts[4]) != "RAW";
    number := if hasInterface then ParseDecimal(parts[4], MAX_NUMBER).value else 0;
    var classIndex := if hasInterface then 5 else 4;
    raw := |parts| > classIndex && Upper(parts[classIndex]) == "RAW";
  }

  /** The device or serial number that a canonical name cannot hold. */
  predicate EndsBadly(d: Descriptor) {
    EndsInColon(d.deviceName) || EndsInColon(d.usbSerial)
  }

  predicate NeverTooLong(d: Descriptor) {
    d.kind == AsrlInstr || d.kind == GpibInstr || d.kind == GpibIntfc || d.kind == ProjectMock
  }

  lemma AsrlCanonical(board: nat)
    requires board <= MAX_NUMBER
    ensures var d := Plain(AsrlInstr, 4, board, "INSTR", Join(AsrlParts(board))); ParseResource(d.canonicalName) == Some(d)
  {
    AsrlFixpoint(board);
    NumeralLength(board, 5);
    DispatchAsrl(AsrlParts(board), board);
    ParseJoined(AsrlParts(board));
  }

  lemma IntfcCanonical(board: nat)
    requires board <= MAX_NUMBER
    ensures var d := Plain(GpibIntfc, 1, board, "INTFC", Join(IntfcParts(board))); ParseResource(d.canonicalName) == Some(d)
  {
    IntfcFixpoint(board);
    NumeralLength(board, 5);
    DispatchGpib(IntfcParts(board), board);
    ParseJoined(IntfcParts(board));
  }

  lemma JoinLength(parts: seq<string>)
    requires |parts| == 3 || |parts| == 4
    ensures |Join(parts)| == |parts[0]| + |parts[1]| + |parts[2]| + 4 + if |parts| == 4 then |parts[3]| + 2 else 0
  {
    var last := parts[2..];
    assert parts[1..][1..] == last;
    assert Join(parts[1..]) == parts[1] + "::" + Join(last);
    if |parts| == 4 {
      assert last[1..] == [parts[3]];
      assert Join(last) == parts[2] + "::" + parts[3];
    }
  }

  lemma GpibCanonical(board: nat, primary: nat, secondary: Option<nat>)
    requires board <= MAX_NUMBER && primary <= MAX_ADDRESS && (secondary.Some? ==> secondary.value <= MAX_ADDRESS)
    ensures var d := GpibDescriptor(board, primary, secondary); ParseResource(d.canonicalName) == Some(d)
  {
    var parts := GpibParts(board, primary, secondary);
    GpibGood(board, primary, secondary);
    GpibFixpoint(board, primary, secondary);
    NumeralLength(board, 5);
    NumeralLength(primary, 5);
    if secondary.Some? {
      NumeralLength(secondary.value, 5);
    }
    JoinLength(parts);
    DispatchGpib(parts, board);
    ParseJoined(parts);
  }

  /** For serial ports, GPIB and the mock, canonicalisation is a fixpoint without exception. */
  lemma ShortNamesAreFixpoints(value: string, d: Descriptor)
    requires ParseResource(value) == Some(d) && NeverTooLong(d)
    ensures ParseResource(d.canonicalName) == Some(d)
  {
    if d.kind == ProjectMock {
      UpperFixed(MOCK_RESOURCE);
      OnlyMockIsMock(value, d);
    } else {
      NotMock(value, d);
      var parts := Split(value);
      KindFamily(parts);
      if d.kind == AsrlInstr {
        var board := AsrlRead(parts);
        AsrlCanonical(board);
      } else {
        var board, primary, secondary := GpibRead(parts);
        IntfcCanonical(board);
        GpibCanonical(board, primary, secondary);
      }
    }
  }

  /** The family of a name decides the kind of its descriptor. */
  lemma KindFamily(parts: seq<string>)
    requires parts != [] && ParseParts(parts).Some?
    ensures match ParseParts(parts).value.kind
            case AsrlInstr => ParseParts(parts) == ParseAsrl(parts)
            case GpibInstr => ParseParts(parts) == ParseGpib(parts)
            case GpibIntfc => ParseParts(parts) == ParseGpib(parts)
            case TcpipInstr => ParseParts(parts) == ParseTcpip(parts)
            case TcpipSocket => ParseParts(parts) == ParseTcpip(parts)
            case UsbInstr => ParseParts(parts) == ParseUsb(parts)
            case UsbRaw => ParseParts(parts) == ParseUsb(parts)
            case ProjectMock => false
  {
  }

  lemma OnlyMockIsMock(value: string, d: Descriptor)
    requires ParseResource(value) == Some(d) && d.kind == ProjectMock
    ensures d == Plain(ProjectMock, 0x8000, 0, "INSTR", MOCK_RESOURCE)
  {
  }

  lemma NotMock(value: string, d: Descriptor)
    requires ParseResource(value) == Some(d) && d.kind != ProjectMock
    ensures Split(value) != [] && ParseParts(Split(value)) == Some(d) && GoodParts(Split(value))
    ensures Join(Split(value)) == value
  {
    SplitExact(value, Split(value));
  }

  lemma SocketCanonical(board: nat, display: string, port: nat)
    requires board <= MAX_NUMBER && Whole(display) && HostOf(display) != "" && 0 < port <= MAX_NUMBER
    ensures var d := SocketDescriptor(board, display, port);
            |d.canonicalName| < MAX_NAME ==> ParseResource(d.canonicalName) == Some(d)
  {
    var parts := SocketParts(board, display, port);
    if |Join(parts)| < MAX_NAME {
      SocketFixpoint(board, display, port);
      NumeralIsSimple(port);
      SimpleIsWhole(Numeral(port, 10));
      TcpipGood(board, display, Numeral(port, 10), "SOCKET");
      DispatchTcpip(parts, board);
      ParseJoined(parts);
    }
  }

  lemma DeviceCanonical(board: nat, display: string, device: string)
    requires board <= MAX_NUMBER && Whole(display) && HostOf(display) != "" && Whole(device) && !EndsInColon(device)
    ensures var d := DeviceDescriptor(board, display, device);
            |d.canonicalName| < MAX_NAME ==> ParseResource(d.canonicalName) == Some(d)
  {
    var parts := DeviceParts(board, display, device);
    if |Join(parts)| < MAX_NAME {
      DeviceFixpoint(board, display, device);
      TcpipGood(board, display, device, "INSTR");
      DispatchTcpip(parts, board);
      ParseJoined(parts);
    }
  }

  lemma UsbCanonical(board: nat, vendor: nat, product: nat, serial: string, number: nat, raw: bool)
    requires board <= MAX_NUMBER && vendor < 0x1_0000 && product < 0x1_0000 && number <= MAX_NUMBER
    requires Whole(serial) && !EndsInColon(serial)
    ensures var d := UsbDescriptor(board, vendor, product, serial, number, raw);
            |d.canonicalName| < MAX_NAME ==> ParseResource(d.canonicalName) == Some(d)
  {
    var parts := UsbParts(board, vendor, product, serial, number, raw);
    if |Join(parts)| < MAX_NAME {
      UsbFixpoint(board, vendor, product, serial, number, raw);
      UsbGood(board, vendor, product, serial, number, raw);
      DispatchUsb(parts, board);
      ParseJoined(parts);
    }
  }

  lemma GoodNamesAreFixpoints(value: string, d: Descriptor)
    requires ParseResource(value) == Some(d) && |d.canonicalName| < MAX_NAME && !EndsBadly(d)
    ensures ParseResource(d.canonicalName) == Some(d)
  {
    if NeverTooLong(d) {
      ShortNamesAreFixpoints(value, d);
    } else {
      NotMock(value, d);
      var parts := Split(value);
      KindFamily(parts);
      if d.kind == TcpipInstr || d.kind == TcpipSocket {
        var board, port, device := TcpipRead(parts);
        if 0 < port <= MAX_NUMBER {
          SocketCanonical(board, parts[1], port);
        }
        if !EndsInColon(device) {
          DeviceCanonical(board, parts[1], device);
        }
      } else {
        var board, vendor, product, number, raw := UsbRead(parts);
        UsbCanonical(board, vendor, product, parts[3], number, raw);
      }
    }
  }

  /** Only a name that itself ends in a colon has such a device or serial number. */
  lemma BadEnding(value: string, d: Descriptor)
    requires ParseResource(value) == Some(d) && EndsBadly(d)
    ensures EndsInColon(value)
  {
    if d.kind == ProjectMock {
      OnlyMockIsMock(value, d);
      assert false;
    } else {
      NotMock(value, d);
      var parts := Split(value);
      KindFamily(parts);
      assert Whole(parts[|parts| - 1]);
      JoinEnds(parts);
      BadParts(parts, d);
    }
  }

  lemma BadParts(parts: seq<string>, d: Descriptor)
    requires GoodParts(parts) && ParseParts(parts) == Some(d) && EndsBadly(d)
    ensures EndsInColon(parts[|parts| - 1])
  {
    KindFamily(parts);
    if d.kind == TcpipInstr || d.kind == TcpipSocket {
      var board, port, device := TcpipRead(parts);
    } else if d.kind == UsbInstr || d.kind == UsbRaw {
      var board, vendor, product, number, raw := UsbRead(parts);
    } else if d.kind == AsrlInstr {
      var board := AsrlRead(parts);
      assert false;
    } else {
      var board, primary, secondary := GpibRead(parts);
      assert false;
    }
  }

  lemma ClassAtTheEnd(parts: seq<string>, resourceClass: string)
    requires parts != [] && parts[|parts| - 1] == resourceClass && Simple(resourceClass)
    ensures !EndsInColon(Join(parts))
  {
    JoinEnds(parts);
  }

  lemma TcpipEnding(board: nat, display: string, port: nat, device: string)
    ensures !EndsInColon(SocketDescriptor(board, display, port).canonicalName)
    ensures !EndsInColon(DeviceDescriptor(board, display, device).canonicalName)
  {
    ClassAtTheEnd(SocketParts(board, display, port), "SOCKET");
    ClassAtTheEnd(DeviceParts(board, display, device), "INSTR");
  }

  lemma GpibEnding(board: nat, primary: nat, secondary: Option<nat>)
    ensures !EndsInColon(Join(IntfcParts(board)))
    ensures !EndsInColon(GpibDescriptor(board, primary, secondary).canonicalName)
  {
    ClassAtTheEnd(IntfcParts(board), "INTFC");
    ClassAtTheEnd(GpibParts(board, primary, secondary), "INSTR");
  }

  lemma UsbEnding(board: nat, vendor: nat, product: nat, serial: string, number: nat, raw: bool)
    requires vendor < 0x1_0000 && product < 0x1_0000
    ensures !EndsInColon(UsbDescriptor(board, vendor, product, serial, number, raw).canonicalName)
  {
    ClassAtTheEnd(UsbParts(board, vendor, product, serial, number, raw), UsbClass(raw));
  }

  lemma PartsEnding(parts: seq<string>, d: Descriptor)
    requires GoodParts(parts) && ParseParts(parts) == Some(d)
    ensures !EndsInColon(d.canonicalName)
  {
    KindFamily(parts);
    match d.kind {
      case AsrlInstr =>
        var board := AsrlRead(parts);
        ClassAtTheEnd(AsrlParts(board), "INSTR");
      case GpibInstr | GpibIntfc =>
        var board, primary, secondary := GpibRead(parts);
        GpibEnding(board, primary, secondary);
      case TcpipInstr | TcpipSocket =>
        var board, port, device := TcpipRead(parts);
        TcpipEnding(board, parts[1], port, device);
      case UsbInstr | UsbRaw =>
        var board, vendor, product, number, raw := UsbRead(parts);
        UsbEnding(board, vendor, product, parts[3], number, raw);
    }
  }

  /** A canonical name ends in its resource class. */
  lemma CanonicalEnding(value: string, d: Descriptor)
    requires ParseResource(value) == Some(d)
    ensures !EndsInColon(d.canonicalName)
  {
    if d.kind == ProjectMock {
      OnlyMockIsMock(value, d);
    } else {
      NotMock(value, d);
      PartsEnding(Split(value), d);
    }
  }

  /** Exactly when the canonical name of a resource names the same resource: when it is short enough
      for a name, and neither a device name nor a serial number ends in a colon. */
  lemma CanonicalExactly(value: string, d: Descriptor)
    requires ParseResource(value) == Some(d)
    ensures ParseResource(d.canonicalName) == Some(d) <==> |d.canonicalName| < MAX_NAME && !EndsBadly(d)
  {
    CanonicalEnding(value, d);
    if |d.canonicalName| < MAX_NAME && !EndsBadly(d) {
      GoodNamesAreFixpoints(value, d);
    } else if ParseResource(d.canonicalName) == Some(d) {
      BadEnding(d.canonicalName, d);
      assert false;
    }
  }

  lemma DeviceFromParts(parts: seq<string>, board: nat)
    requires |parts| == 3 && ParsePrefix(parts[0], "TCPIP") == Some(board) && parts[1] != "" && HostOf(parts[1]) != ""
    requires Upper(parts[2]) != "INSTR"
    ensures ParseTcpip(parts) == Some(DeviceDescriptor(board, parts[1], parts[2]))
  {
  }

  /** A name that leaves the class out may end in its device. */
  lemma DeviceAtTheEnd(board: nat, display: string, device: string)
    requires board <= MAX_NUMBER && Simple(display) && Whole(device) && Upper(device) != "INSTR"
    requires |Join([Prefix("TCPIP", board), display, device])| < MAX_NAME
    ensures ParseResource(Join([Prefix("TCPIP", board), display, device])) == Some(DeviceDescriptor(board, display, device))
  {
    var parts := [Prefix("TCPIP", board), display, device];
    PrefixRoundTrip("TCPIP", board);
    PrefixIsSimple("TCPIP", board);
    DispatchTcpip(parts, board);
    ThreeGoodParts(Prefix("TCPIP", board), display, device);
    ParseJoined(parts);
    DeviceFromParts(parts, board);
  }

  lemma ThreeGoodParts(first: string, second: string, last: string)
    requires Simple(first) && Simple(second) && Whole(last)
    ensures GoodParts([first, second, last])
  {
    SimpleIsWhole(first);
    SimpleIsWhole(second);
  }

  lemma ColonEndIsWhole()
    ensures Whole("dev:")
  {
    var part := "dev:";
    SimpleBrackets("dev");
    assert part[..3] == "dev";
  }

  /** A name whose canonical form is another name, or none. */
  lemma NotEveryNameIsAFixpoint()
    ensures var value := "TCPIP0::h::dev:";
            && ParseResource(value).Some?
            && ParseResource(ParseResource(value).value.canonicalName) != ParseResource(value)
  {
    var value, parts, d := "TCPIP0::h::dev:", [Prefix("TCPIP", 0), "h", "dev:"], DeviceDescriptor(0, "h", "dev:");
    assert parts[0] == "TCPIP0" && value == "TCPIP0" + "::" + ("h" + "::" + "dev:");
    JoinThree(parts);
    ColonEndIsWhole();
    assert Upper("dev:") != "INSTR" by {
      assert |Upper("dev:")| == 4 && |"INSTR"| == 5;
    }
    DeviceAtTheEnd(0, "h", "dev:");
    CanonicalExactly(value, d);
  }

  lemma JoinThree(parts: seq<string>)
    requires |parts| == 3
    ensures Join(parts) == parts[0] + "::" + (parts[1] + "::" + parts[2])
  {
    var rest := parts[1..];
    assert rest[1..] == [parts[2]];
    assert Join(rest) == parts[1] + "::" + parts[2];
  }

  /** Such a canonical name identifies its resource. */
  lemma CanonicalIdentifies(v: string, w: string, d: Descriptor, e: Descriptor)
    requires ParseResource(v) == Some(d) && ParseResource(w) == Some(e)
    requires d.canonicalName == e.canonicalName && |d.canonicalName| < MAX_NAME && !EndsBadly(d) && !EndsBadly(e)
    ensures d == e
  {
    CanonicalExactly(v, d);
    CanonicalExactly(w, e);
  }
}
