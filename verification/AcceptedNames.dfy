/** Which texts name a serial port, a GPIB board or a socket. */
module AcceptedNames {
  import opened NameParts
  import opened Numerals
  import opened ResourceNames
  import opened Text
  import opened Visa

  lemma {:induction false} DigitsAreSimple(s: string, k: nat)
    requires NumeralValue(s, 10).Some? && k < |s|
    ensures '0' <= s[k] <= '9'
    decreases |s|
  {
    if k < |s| - 1 {
      DigitsAreSimple(s[..|s| - 1], k);
    }
  }

  /** An interface name with its number has nothing in it that matters to `split`. */
  lemma TokenIsSimple(token: string, name: string)
    requires ParsePrefix(token, name).Some? && Simple(name)
    ensures Simple(token)
  {
    forall k | 0 <= k < |token| ensures token[k] != ':' && token[k] != '[' && token[k] != ']' {
      if k < |name| {
        assert Upper(token[..|name|])[k] == Fold(token[k]) == name[k];
      } else {
        DigitsAreSimple(token[|name|..], k - |name|);
        assert token[|name|..][k - |name|] == token[k];
      }
    }
  }

  lemma WordIsSimple(part: string, word: string)
    requires Is(part, word) && Simple(word)
    ensures Simple(part)
  {
    assert |part| == |word|;
    forall k | 0 <= k < |part| ensures part[k] != ':' && part[k] != '[' && part[k] != ']' {
      assert Upper(part)[k] == Fold(part[k]) == word[k];
    }
  }

  lemma TokenStarts(token: string, name: string)
    requires ParsePrefix(token, name).Some?
    ensures StartsWith(Upper(token), name)
  {
    assert Upper(token)[..|name|] == Upper(token[..|name|]);
  }

  lemma DispatchOf(parts: seq<string>, name: string)
    requires parts != [] && ParsePrefix(parts[0], name).Some? && (name == "ASRL" || name == "GPIB" || name == "TCPIP")
    ensures Fold(parts[0][0]) != 'W'
    ensures ParseParts(parts) == if name == "ASRL" then ParseAsrl(parts) else if name == "GPIB" then ParseGpib(parts) else ParseTcpip(parts)
  {
    TokenStarts(parts[0], name);
    var first := Upper(parts[0]);
    assert first[0] == first[..|name|][0] == name[0];
    assert first[0] == Fold(parts[0][0]);
    assert name != "ASRL" ==> first[..4][0] != "ASRL"[0];
    assert name == "TCPIP" ==> first[..4][0] != "GPIB"[0];
  }

  lemma PairIsGood(token: string, part: string)
    requires Simple(token) && Simple(part)
    ensures GoodParts([token]) && GoodParts([token, part])
    ensures Join([token]) == token && Join([token, part]) == token + "::" + part
  {
    SimpleIsWhole(token);
    SimpleIsWhole(part);
    assert [token, part][1..] == [part];
  }

  lemma JoinPair(parts: seq<string>)
    requires |parts| == 2
    ensures Join(parts) == parts[0] + "::" + parts[1]
  {
    assert parts[1..] == [parts[1]];
  }

  /** `token`, alone or with the class behind it. */
  predicate AsrlText(value: string, token: string, ending: string, board: nat) {
    && ParsePrefix(token, "ASRL") == Some(board)
    && (value == token || (Is(ending, "INSTR") && value == token + "::" + ending))
  }

  /** A text names serial port `board` exactly when it is short enough and is "ASRL" with that number, in
      any case, perhaps with the class behind it. */
  lemma AsrlAccepts(value: string, board: nat)
    ensures ParseResource(value) == Some(Plain(AsrlInstr, 4, board, "INSTR", Join(AsrlParts(board)))) <==>
            |value| < MAX_NAME && exists token, ending :: AsrlText(value, token, ending, board)
  {
    var d := Plain(AsrlInstr, 4, board, "INSTR", Join(AsrlParts(board)));
    if ParseResource(value) == Some(d) {
      NotMock(value, d);
      var parts := Split(value);
      KindFamily(parts);
      if |parts| == 2 {
        JoinPair(parts);
        assert AsrlText(value, parts[0], parts[1], board);
      } else {
        assert AsrlText(value, parts[0], "", board);
      }
    }
    if |value| < MAX_NAME && exists token, ending :: AsrlText(value, token, ending, board) {
      var token, ending :| AsrlText(value, token, ending, board);
      AsrlTextParses(value, token, ending, board);
    }
  }

  lemma AsrlTextParses(value: string, token: string, ending: string, board: nat)
    requires |value| < MAX_NAME && AsrlText(value, token, ending, board)
    ensures ParseResource(value) == Some(Plain(AsrlInstr, 4, board, "INSTR", Join(AsrlParts(board))))
  {
    TokenIsSimple(token, "ASRL");
    if value == token {
      PairIsGood(token, token);
      DispatchOf([token], "ASRL");
      ParseJoined([token]);
    } else {
      WordIsSimple(ending, "INSTR");
      PairIsGood(token, ending);
      DispatchOf([token, ending], "ASRL");
      ParseJoined([token, ending]);
    }
  }

  predicate IntfcText(value: string, token: string, ending: string, board: nat) {
    ParsePrefix(token, "GPIB") == Some(board) && Is(ending, "INTFC") && value == token + "::" + ending
  }

  lemma IntfcShape(parts: seq<string>, board: nat)
    requires parts != [] && ParseGpib(parts) == Some(Plain(GpibIntfc, 1, board, "INTFC", Join(IntfcParts(board))))
    ensures |parts| == 2 && ParsePrefix(parts[0], "GPIB") == Some(board) && Is(parts[1], "INTFC")
  {
  }

  lemma IntfcReads(value: string, board: nat) returns (token: string, ending: string)
    requires ParseResource(value) == Some(Plain(GpibIntfc, 1, board, "INTFC", Join(IntfcParts(board))))
    ensures |value| < MAX_NAME && IntfcText(value, token, ending, board)
  {
    NotMock(value, Plain(GpibIntfc, 1, board, "INTFC", Join(IntfcParts(board))));
    var parts := Split(value);
    KindFamily(parts);
    IntfcShape(parts, board);
    JoinPair(parts);
    token, ending := parts[0], parts[1];
  }

  lemma IntfcTextParses(value: string, token: string, ending: string, board: nat)
    requires |value| < MAX_NAME && IntfcText(value, token, ending, board)
    ensures ParseResource(value) == Some(Plain(GpibIntfc, 1, board, "INTFC", Join(IntfcParts(board))))
  {
    TokenIsSimple(token, "GPIB");
    WordIsSimple(ending, "INTFC");
    PairIsGood(token, ending);
    DispatchOf([token, ending], "GPIB");
    ParseJoined([token, ending]);
  }

  /** A text names GPIB board `board` itself exactly when it is short enough and is "GPIB" with that
      number and the class, in any case. */
  lemma IntfcAccepts(value: string, board: nat)
    ensures ParseResource(value) == Some(Plain(GpibIntfc, 1, board, "INTFC", Join(IntfcParts(board)))) <==>
            |value| < MAX_NAME && exists token, ending :: IntfcText(value, token, ending, board)
  {
    if ParseResource(value) == Some(Plain(GpibIntfc, 1, board, "INTFC", Join(IntfcParts(board)))) {
      var token, ending := IntfcReads(value, board);
    }
    if |value| < MAX_NAME && exists token, ending :: IntfcText(value, token, ending, board) {
      var token, ending :| IntfcText(value, token, ending, board);
      IntfcTextParses(value, token, ending, board);
    }
  }

  ghost predicate SocketText(value: string, token: string, display: string, digits: string, ending: string, board: nat,
                             port: nat) {
    && ParsePrefix(token, "TCPIP") == Some(board) && Is(ending, "SOCKET")
    && Whole(display) && !EndsInColon(display) && HostOf(display) != ""
    && ParseDecimal(digits, MAX_NUMBER) == Some(port) && port > 0
    && value == token + "::" + (display + "::" + (digits + "::" + ending))
  }

  lemma JoinFour(parts: seq<string>)
    requires |parts| == 4
    ensures Join(parts) == parts[0] + "::" + (parts[1] + "::" + (parts[2] + "::" + parts[3]))
  {
    assert parts[1..][1..] == parts[2..] == [parts[2], parts[3]];
    JoinPair(parts[2..]);
  }

  lemma DigitsSimple(digits: string)
    requires ParseDecimal(digits, MAX_NUMBER).Some?
    ensures Simple(digits)
  {
    forall k | 0 <= k < |digits| ensures digits[k] != ':' && digits[k] != '[' && digits[k] != ']' {
      DigitsAreSimple(digits, k);
    }
  }

  lemma SocketTextParses(value: string, token: string, display: string, digits: string, ending: string, board: nat, port: nat)
    requires |value| < MAX_NAME && SocketText(value, token, display, digits, ending, board, port)
    ensures ParseResource(value) == Some(SocketDescriptor(board, display, port))
  {
    var parts := [token, display, digits, ending];
    TokenIsSimple(token, "TCPIP");
    WordIsSimple(ending, "SOCKET");
    DigitsSimple(digits);
    SimpleIsWhole(token);
    SimpleIsWhole(digits);
    SimpleIsWhole(ending);
    assert GoodParts(parts);
    JoinFour(parts);
    DispatchOf(parts, "TCPIP");
    ParseJoined(parts);
  }

  /** A socket's descriptor determines the host as it was spelled. */
  lemma DisplayRead(board: nat, x: string, y: string, port: nat)
    requires Join(SocketParts(board, x, port)) == Join(SocketParts(board, y, port))
    ensures x == y
  {
    JoinFour(SocketParts(board, x, port));
    JoinFour(SocketParts(board, y, port));
    var front, back := Prefix("TCPIP", board) + "::", "::" + (Numeral(port, 10) + "::" + "SOCKET");
    assert Join(SocketParts(board, x, port)) == front + (x + back);
    assert Join(SocketParts(board, y, port)) == front + (y + back);
    assert (front + (x + back))[|front|..] == x + back && (front + (y + back))[|front|..] == y + back;
    assert (x + back)[..|x|] == x && (y + back)[..|y|] == y;
  }

  lemma SocketShape(parts: seq<string>, board: nat, display: string, port: nat)
    requires GoodParts(parts) && ParseTcpip(parts) == Some(SocketDescriptor(board, display, port))
    ensures |parts| == 4 && parts[1] == display && HostOf(display) != "" && port > 0
    ensures ParsePrefix(parts[0], "TCPIP") == Some(board) && Is(parts[3], "SOCKET")
    ensures ParseDecimal(parts[2], MAX_NUMBER) == Some(port)
  {
    assert ParseTcpip(parts) == Some(SocketDescriptor(board, parts[1], port));
    DisplayRead(board, parts[1], display, port);
  }

  lemma SocketReads(value: string, board: nat, display: string, port: nat)
    returns (token: string, digits: string, ending: string)
    requires ParseResource(value) == Some(SocketDescriptor(board, display, port))
    ensures |value| < MAX_NAME && SocketText(value, token, display, digits, ending, board, port)
  {
    NotMock(value, SocketDescriptor(board, display, port));
    var parts := Split(value);
    KindFamily(parts);
    SocketShape(parts, board, display, port);
    JoinFour(parts);
    token, digits, ending := parts[0], parts[2], parts[3];
  }

  /** A text names port `port` of the host spelled `display` exactly when it is short enough and is
      "TCPIP" with the board's number, the host, the port and the class; the host is whole: no separator
      cuts it and no bracket is left open in it. */
  lemma SocketAccepts(value: string, board: nat, display: string, port: nat)
    ensures ParseResource(value) == Some(SocketDescriptor(board, display, port)) <==>
            |value| < MAX_NAME && exists token, digits, ending :: SocketText(value, token, display, digits, ending, board, port)
  {
    if ParseResource(value) == Some(SocketDescriptor(board, display, port)) {
      var token, digits, ending := SocketReads(value, board, display, port);
    }
    if |value| < MAX_NAME && exists token, digits, ending :: SocketText(value, token, display, digits, ending, board, port) {
      var token, digits, ending :| SocketText(value, token, display, digits, ending, board, port);
      SocketTextParses(value, token, display, digits, ending, board, port);
    }
  }

  // What the parts of a name mean

  /** An interface name in any case without a number is board 0. */
  lemma BareNameIsBoardZero(token: string, name: string)
    requires Is(token, name)
    ensures ParsePrefix(token, name) == Some(0)
  {
    assert token[..|name|] == token;
  }

  /** Brackets around a literal address are not part of the host, a host without a colon needs none, and a
      host with a colon does. */
  lemma HostInBrackets(host: string)
    ensures HostOf("[" + host + "]") == host
    ensures ':' !in host && !(|host| >= 2 && host[0] == '[' && host[|host| - 1] == ']') ==> HostOf(host) == host
    ensures ':' in host && !(|host| >= 2 && host[0] == '[' && host[|host| - 1] == ']') ==> HostOf(host) == ""
  {
    var display := "[" + host + "]";
    assert display[1..|display| - 1] == host;
  }

  predicate BeginsWith(device: string, word: string) {
    |word| <= |device| && Is(device[..|word|], word)
  }

  /** The protocol of a network instrument, by the beginning of its device name in any case. */
  lemma DeviceProtocol(device: string)
    ensures TcpipProtocol(device) == Hislip <==>
            BeginsWith(device, "HISLIP") && |device| > 6 && Alphanumeric(device[6..])
    ensures TcpipProtocol(device) == Vxi11 <==>
            BeginsWith(device, "INST") || BeginsWith(device, "VXI") || BeginsWith(device, "GPIB")
    ensures TcpipProtocol(device) != NoProtocol
  {
    var name := Upper(device);
    forall word: string ensures StartsWith(name, word) <==> BeginsWith(device, word) {
      if |word| <= |device| {
        assert name[..|word|] == Upper(device[..|word|]);
      }
    }
    if |device| > 6 {
      UpperAlphanumeric(device[6..]);
      assert name[6..] == Upper(device[6..]);
    }
    if BeginsWith(device, "HISLIP") {
      assert name[0] == name[..6][0] == 'H';
      assert |name| >= 4 ==> name[..4][0] == 'H';
      assert name[..3][0] == 'H';
    }
  }

  lemma UpperAlphanumeric(s: string)
    ensures Alphanumeric(Upper(s)) <==> Alphanumeric(s)
  {
    if Alphanumeric(Upper(s)) {
      forall k | 0 <= k < |s| ensures 'A' <= s[k] <= 'Z' || 'a' <= s[k] <= 'z' || '0' <= s[k] <= '9' {
        assert Upper(s)[k] == Fold(s[k]);
      }
    }
  }

  /** The devices that names without one and the names in the manuals stand for. */
  lemma UsualDevices()
    ensures TcpipProtocol("inst0") == Vxi11 && TcpipProtocol("hislip0") == Hislip && TcpipProtocol("hislip") == Unsupported
  {
    assert Upper("inst0") == "INST0" && Upper("hislip0") == "HISLIP0" && Upper("hislip") == "HISLIP";
    assert "INST0"[..4] == "INST" && "HISLIP0"[..6] == "HISLIP" && "HISLIP0"[6..] == "0";
  }

  // What a resource is read to be

  /** A serial port has the number in its name and nothing else. */
  lemma AsrlFields(parts: seq<string>, d: Descriptor)
    requires parts != [] && ParseAsrl(parts) == Some(d)
    ensures d.kind == AsrlInstr && d.interfaceType == 4 && d.resourceClass == "INSTR"
    ensures ParsePrefix(parts[0], "ASRL") == Some(d.interfaceNumber)
    ensures d.canonicalName == "ASRL" + Numeral(d.interfaceNumber, 10) + "::" + "INSTR"
  {
    JoinPair(AsrlParts(d.interfaceNumber));
  }

  /** The first address of a GPIB instrument is its primary one, and the second, if there is one, its
      secondary. */
  lemma GpibFields(parts: seq<string>, d: Descriptor)
    requires parts != [] && ParseGpib(parts) == Some(d)
    ensures d.interfaceType == 1 && ParsePrefix(parts[0], "GPIB") == Some(d.interfaceNumber) && |parts| >= 2
    ensures d.kind == (if |parts| == 2 && Is(parts[1], "INTFC") then GpibIntfc else GpibInstr)
    ensures d.resourceClass == if d.kind == GpibIntfc then "INTFC" else "INSTR"
    ensures d.kind == GpibInstr ==>
      && ParseDecimal(parts[1], 30) == Some(d.gpibPrimary)
      && (d.gpibHasSecondary <==> |parts| >= 3 && !Is(parts[2], "INSTR"))
      && if d.gpibHasSecondary then ParseDecimal(parts[2], 30) == Some(d.gpibSecondary) else d.gpibSecondary == 0
    ensures d.canonicalName ==
            "GPIB" + Numeral(d.interfaceNumber, 10) + "::" +
            if d.kind == GpibIntfc then "INTFC"
            else if !d.gpibHasSecondary then Numeral(d.gpibPrimary, 10) + "::" + "INSTR"
            else Numeral(d.gpibPrimary, 10) + "::" + (Numeral(d.gpibSecondary, 10) + "::" + "INSTR")
  {
    var board := d.interfaceNumber;
    if d.kind == GpibIntfc {
      JoinPair(IntfcParts(board));
    } else if d.gpibHasSecondary {
      JoinFour(GpibParts(board, d.gpibPrimary, Some(d.gpibSecondary)));
    } else {
      JoinThree(GpibParts(board, d.gpibPrimary, None));
    }
  }

  /** The host, the port and the device of a network name. */
  lemma TcpipFields(parts: seq<string>, d: Descriptor)
    requires parts != [] && ParseTcpip(parts) == Some(d)
    ensures d.interfaceType == 6 && ParsePrefix(parts[0], "TCPIP") == Some(d.interfaceNumber)
    ensures |parts| >= 2 && d.host == HostOf(parts[1]) && d.host != ""
    ensures d.kind == if |parts| == 4 && Is(parts[3], "SOCKET") then TcpipSocket else TcpipInstr
    ensures d.resourceClass == if d.kind == TcpipSocket then "SOCKET" else "INSTR"
    ensures d.kind == TcpipSocket ==> ParseDecimal(parts[2], 0xFFFF) == Some(d.port) && d.port > 0
    ensures d.kind == TcpipInstr ==>
      && d.deviceName == (if |parts| == 2 || (|parts| == 3 && Is(parts[2], "INSTR")) then "inst0" else parts[2])
      && d.protocol == TcpipProtocol(d.deviceName)
    ensures d.canonicalName ==
            "TCPIP" + Numeral(d.interfaceNumber, 10) + "::" + (parts[1] + "::" +
              if d.kind == TcpipSocket then Numeral(d.port, 10) + "::" + "SOCKET" else d.deviceName + "::" + "INSTR")
  {
    var board := d.interfaceNumber;
    if d.kind == TcpipSocket {
      JoinFour(SocketParts(board, parts[1], d.port));
    } else {
      JoinFour(DeviceParts(board, parts[1], d.deviceName));
    }
  }

  /** The ids, the serial number, the interface and the class of a USB name. */
  lemma UsbFields(parts: seq<string>, d: Descriptor)
    requires parts != [] && ParseUsb(parts) == Some(d)
    ensures d.interfaceType == 7 && ParsePrefix(parts[0], "USB") == Some(d.interfaceNumber) && |parts| >= 4
    ensures ParseHexId(parts[1]) == Some(d.usbVendor) && ParseHexId(parts[2]) == Some(d.usbProduct)
    ensures d.usbSerial == parts[3] && d.usbSerial != ""
    ensures |parts| == 4 || Is(parts[4], "INSTR") || Is(parts[4], "RAW") ==> d.usbInterface == 0
    ensures |parts| > 4 && !Is(parts[4], "INSTR") && !Is(parts[4], "RAW") ==> ParseDecimal(parts[4], 0xFFFF) == Some(d.usbInterface)
    ensures d.kind == if Is(parts[|parts| - 1], "RAW") && |parts| > 4 then UsbRaw else UsbInstr
    ensures d.resourceClass == if d.kind == UsbRaw then "RAW" else "INSTR"
    ensures d.usbVendor < 0x1_0000 && d.usbProduct < 0x1_0000
    ensures d.canonicalName == Join(["USB" + Numeral(d.interfaceNumber, 10), "0x" + HexField(d.usbVendor),
                                     "0x" + HexField(d.usbProduct), d.usbSerial, Numeral(d.usbInterface, 10), d.resourceClass])
  {
    if |parts| > 4 && ParseDecimal(parts[4], MAX_NUMBER).Some? {
      DecimalIsNoWord(parts[4], MAX_NUMBER);
    }
  }
}
