/** USBTMC message frames (section 3.2 of USBTMC 1.0) and the USB488 trigger. */
module UsbTmcProtocol {
  import opened Visa

  const HEADER_SIZE := 12
  const MAXIMUM_PAYLOAD := 64 * 1024 * 1024
  const DEV_DEP_MSG_OUT: Byte := 1
  const REQUEST_DEV_DEP_MSG_IN: Byte := 2
  const DEV_DEP_MSG_IN: Byte := 2
  const USB488_TRIGGER: Byte := 128

  datatype DevDepMessage = DevDepMessage(tag: Byte, endOfMessage: bool, payload: seq<Byte>)

  datatype Request = Request(tag: Byte, transferSize: nat, termcharEnabled: bool, termchar: Byte)

  function PaddingFor(n: nat): nat {
    (4 - n % 4) % 4
  }

  function Complement(b: Byte): Byte {
    255 - b
  }

  function U32Le(v: nat): (r: seq<Byte>)
    requires v < 0x1_0000_0000
    ensures |r| == 4
  {
    [v % 256, v / 256 % 256, v / 65536 % 256, v / 16777216 % 256]
  }

  function ReadU32Le(bytes: seq<Byte>, offset: nat): nat
    requires offset + 4 <= |bytes|
  {
    bytes[offset] as int + bytes[offset + 1] as int * 256 + bytes[offset + 2] as int * 65536
    + bytes[offset + 3] as int * 16777216
  }

  function Zeros(n: nat): (r: seq<Byte>)
    ensures |r| == n
  {
    seq(n, _ => 0)
  }

  function Header(messageId: Byte, tag: Byte, size: nat, attributes: Byte, termchar: Byte): (r: seq<Byte>)
    requires size < 0x1_0000_0000
    ensures |r| == HEADER_SIZE
  {
    [messageId, tag, Complement(tag), 0] + U32Le(size) + [attributes, termchar, 0, 0]
  }

  function EncodeMessage(messageId: Byte, tag: Byte, payload: seq<Byte>, attributes: Byte,
                         termchar: Byte): Option<seq<Byte>> {
    if tag == 0 || |payload| > MAXIMUM_PAYLOAD then None
    else Some(Header(messageId, tag, |payload|, attributes, termchar) + payload + Zeros(PaddingFor(|payload|)))
  }

  function EncodeDevDepMsgOut(tag: Byte, payload: seq<Byte>, endOfMessage: bool): Option<seq<Byte>> {
    EncodeMessage(DEV_DEP_MSG_OUT, tag, payload, if endOfMessage then 1 else 0, 0)
  }

  function EncodeDevDepMsgIn(tag: Byte, payload: seq<Byte>, endOfMessage: bool): Option<seq<Byte>> {
    EncodeMessage(DEV_DEP_MSG_IN, tag, payload, if endOfMessage then 1 else 0, 0)
  }

  function EncodeRequest(tag: Byte, transferSize: nat, termcharEnabled: bool, termchar: Byte): Option<seq<Byte>> {
    if tag == 0 || transferSize == 0 || transferSize > MAXIMUM_PAYLOAD then None
    else Some(Header(REQUEST_DEV_DEP_MSG_IN, tag, transferSize, if termcharEnabled then 2 else 0, termchar))
  }

  function EncodeTrigger(tag: Byte): Option<seq<Byte>> {
    if tag == 0 then None
    else Some([USB488_TRIGGER, tag, Complement(tag), 0] + Zeros(8))
  }

  predicate ValidCommonHeader(bytes: seq<Byte>, messageId: Byte, expectedTag: Byte) {
    && |bytes| >= HEADER_SIZE && bytes[0] == messageId
    && bytes[1] != 0 && bytes[1] == expectedTag
    && bytes[2] == Complement(bytes[1]) && bytes[3] == 0
  }

  function DecodeMessage(bytes: seq<Byte>, messageId: Byte, expectedTag: Byte, maximumPayload: nat,
                         maximumAlignment: nat, fixedAlignment: bool): Option<DevDepMessage> {
    if !ValidCommonHeader(bytes, messageId, expectedTag) || bytes[8] / 2 != 0 || bytes[9] != 0 || bytes[10] != 0 || bytes[11] != 0
    then None
    else
      var size := ReadU32Le(bytes, 4);
      if size > maximumPayload || size > MAXIMUM_PAYLOAD || |bytes| < HEADER_SIZE + size then None
      else
        var alignment := |bytes| - (HEADER_SIZE + size);
        if (fixedAlignment && alignment != PaddingFor(size)) || (!fixedAlignment && alignment > maximumAlignment) then None
        else Some(DevDepMessage(bytes[1], bytes[8] % 2 == 1, bytes[HEADER_SIZE..HEADER_SIZE + size]))
  }

  function DecodeDevDepMsgOut(bytes: seq<Byte>, maximumPayload: nat): Option<DevDepMessage> {
    if |bytes| < HEADER_SIZE then None
    else DecodeMessage(bytes, DEV_DEP_MSG_OUT, bytes[1], maximumPayload, 3, true)
  }

  function DecodeDevDepMsgIn(bytes: seq<Byte>, expectedTag: Byte, maximumPayload: nat,
                             maximumAlignment: nat): Option<DevDepMessage> {
    DecodeMessage(bytes, DEV_DEP_MSG_IN, expectedTag, maximumPayload, maximumAlignment, false)
  }

  function DecodeRequest(bytes: seq<Byte>): Option<Request> {
    if |bytes| != HEADER_SIZE || !ValidCommonHeader(bytes, REQUEST_DEV_DEP_MSG_IN, bytes[1])
       || (bytes[8] != 0 && bytes[8] != 2) || bytes[10] != 0 || bytes[11] != 0
    then None
    else
      var size := ReadU32Le(bytes, 4);
      if size == 0 || size > MAXIMUM_PAYLOAD then None
      else Some(Request(bytes[1], size, bytes[8] == 2, bytes[9]))
  }

  function DecodeTrigger(bytes: seq<Byte>): Option<Byte> {
    if |bytes| == HEADER_SIZE && ValidCommonHeader(bytes, USB488_TRIGGER, bytes[1])
       && forall k :: 4 <= k < |bytes| ==> bytes[k] == 0
    then Some(bytes[1]) else None
  }

  lemma U32RoundTrip(v: nat)
    requires v < 0x1_0000_0000
    ensures ReadU32Le(U32Le(v), 0) == v
  {
    var a, b := v / 256, v / 65536;
    assert v == 256 * a + v % 256;
    assert a / 256 == b && b / 256 == v / 16777216;
    assert a == 256 * b + a % 256;
    assert v / 16777216 < 256;
  }

  lemma U32Unique(bytes: seq<Byte>)
    requires |bytes| == 4
    ensures ReadU32Le(bytes, 0) < 0x1_0000_0000 && U32Le(ReadU32Le(bytes, 0)) == bytes
  {
    var v := ReadU32Le(bytes, 0);
    Digits(bytes[0], bytes[1] as int + bytes[2] as int * 256 + bytes[3] as int * 65536);
    Digits(bytes[1], bytes[2] as int + bytes[3] as int * 256);
    Digits(bytes[2], bytes[3]);
    assert v / 65536 == v / 256 / 256 && v / 16777216 == v / 256 / 256 / 256;
  }

  lemma Digits(low: Byte, rest: nat)
    ensures (low + rest * 256) % 256 == low && (low + rest * 256) / 256 == rest
  {
  }

  lemma HeaderFields(messageId: Byte, tag: Byte, size: nat, attributes: Byte, termchar: Byte, tail: seq<Byte>)
    requires size < 0x1_0000_0000
    ensures var b := Header(messageId, tag, size, attributes, termchar) + tail;
            && |b| == HEADER_SIZE + |tail|
            && b[0] == messageId && b[1] == tag && b[2] == Complement(tag) && b[3] == 0
            && ReadU32Le(b, 4) == size
            && b[8] == attributes && b[9] == termchar && b[10] == 0 && b[11] == 0
  {
    U32RoundTrip(size);
    var b := Header(messageId, tag, size, attributes, termchar) + tail;
    assert b[4..8] == U32Le(size);
    assert b[4] == U32Le(size)[0] && b[5] == U32Le(size)[1] && b[6] == U32Le(size)[2] && b[7] == U32Le(size)[3];
  }

  /** A header byte by byte: its kind, its tag and what makes 255 with it, a reserved byte, the size with
      its low byte first, attributes, termination character, two reserved bytes. */
  predicate Laid(b: seq<Byte>, messageId: Byte, tag: Byte, size: nat, attributes: Byte, termchar: Byte) {
    && |b| >= 12 && b[0] == messageId && b[1] == tag && b[1] as int + b[2] as int == 255 && b[3] == 0
    && b[4] as int + 0x100 * b[5] as int + 0x1_0000 * b[6] as int + 0x100_0000 * b[7] as int == size
    && b[8] == attributes && b[9] == termchar && b[10] == 0 && b[11] == 0
  }

  lemma HeaderLaid(messageId: Byte, tag: Byte, size: nat, attributes: Byte, termchar: Byte)
    requires size < 0x1_0000_0000
    ensures Laid(Header(messageId, tag, size, attributes, termchar), messageId, tag, size, attributes, termchar)
  {
    var b := Header(messageId, tag, size, attributes, termchar);
    HeaderFields(messageId, tag, size, attributes, termchar, []);
    assert b + [] == b;
  }

  /** A frame is its header, the payload and zeros up to a multiple of four. */
  lemma FrameLayout(messageId: Byte, tag: Byte, payload: seq<Byte>, attributes: Byte, termchar: Byte)
    requires EncodeMessage(messageId, tag, payload, attributes, termchar).Some?
    ensures var b := EncodeMessage(messageId, tag, payload, attributes, termchar).value;
            && Laid(b, messageId, tag, |payload|, attributes, termchar)
            && 12 + |payload| <= |b| < 16 + |payload| && |b| % 4 == 0
            && b[12..12 + |payload|] == payload
            && forall k :: 12 + |payload| <= k < |b| ==> b[k] == 0
  {
    HeaderLaid(messageId, tag, |payload|, attributes, termchar);
    FramePadded(Header(messageId, tag, |payload|, attributes, termchar), payload);
  }

  lemma FramePadded(header: seq<Byte>, payload: seq<Byte>)
    requires |header| == 12
    ensures var b := header + payload + Zeros(PaddingFor(|payload|));
            && b[..12] == header && b[12..12 + |payload|] == payload
            && 12 + |payload| <= |b| < 16 + |payload| && |b| % 4 == 0
            && forall k :: 12 + |payload| <= k < |b| ==> b[k] == 0
  {
    var b := header + payload + Zeros(PaddingFor(|payload|));
    PaddingFills(|payload|);
    assert |b| == 12 + |payload| + PaddingFor(|payload|);
  }

  lemma PaddingFills(n: nat)
    ensures PaddingFor(n) < 4 && (12 + n + PaddingFor(n)) % 4 == 0
  {
  }

  /** What goes out and comes in: messages of kind 1 and 2 with the end of message in bit 0, requests of kind
      2 with the size they ask for and the termination character enabled by bit 1, triggers of kind 128. */
  lemma MessageKinds(tag: Byte, payload: seq<Byte>, end: bool, size: nat, enabled: bool, termchar: Byte)
    ensures EncodeDevDepMsgOut(tag, payload, end) == EncodeMessage(1, tag, payload, if end then 1 else 0, 0)
    ensures EncodeDevDepMsgIn(tag, payload, end) == EncodeMessage(2, tag, payload, if end then 1 else 0, 0)
    ensures EncodeRequest(tag, size, enabled, termchar).Some? ==>
            var b := EncodeRequest(tag, size, enabled, termchar).value;
            |b| == 12 && Laid(b, 2, tag, size, if enabled then 2 else 0, termchar)
    ensures EncodeTrigger(tag).Some? ==>
            var b := EncodeTrigger(tag).value;
            && |b| == 12 && b[0] == 128 && b[1] == tag && b[1] as int + b[2] as int == 255
            && forall k :: 3 <= k < 12 ==> b[k] == 0
  {
    if EncodeRequest(tag, size, enabled, termchar).Some? {
      HeaderLaid(2, tag, size, if enabled then 2 else 0, termchar);
    }
  }

  /** Exactly which frames decode to `m`: its header, its payload, and alignment bytes whose number
      is right and whose values do not matter. */
  lemma DecodeMessageExact(bytes: seq<Byte>, messageId: Byte, expectedTag: Byte, maximumPayload: nat,
                           maximumAlignment: nat, fixedAlignment: bool, m: DevDepMessage)
    ensures DecodeMessage(bytes, messageId, expectedTag, maximumPayload, maximumAlignment, fixedAlignment) == Some(m) <==>
            && m.tag != 0 && m.tag == expectedTag
            && |m.payload| <= maximumPayload && |m.payload| <= MAXIMUM_PAYLOAD
            && |bytes| >= HEADER_SIZE + |m.payload|
            && bytes[..HEADER_SIZE + |m.payload|]
               == Header(messageId, m.tag, |m.payload|, if m.endOfMessage then 1 else 0, 0) + m.payload
            && var alignment := |bytes| - HEADER_SIZE - |m.payload|;
               if fixedAlignment then alignment == PaddingFor(|m.payload|) else alignment <= maximumAlignment
  {
    var decoded := DecodeMessage(bytes, messageId, expectedTag, maximumPayload, maximumAlignment, fixedAlignment);
    if decoded == Some(m) {
      U32Unique(bytes[4..8]);
      assert ReadU32Le(bytes[4..8], 0) == ReadU32Le(bytes, 4);
      var header := Header(messageId, m.tag, |m.payload|, bytes[8], 0);
      assert bytes[..HEADER_SIZE] == header by {
        assert bytes[..HEADER_SIZE] == bytes[..4] + bytes[4..8] + bytes[8..12];
      }
      assert bytes[..HEADER_SIZE + |m.payload|] == bytes[..HEADER_SIZE] + m.payload;
    }
    if |m.payload| <= MAXIMUM_PAYLOAD && |bytes| >= HEADER_SIZE + |m.payload|
       && bytes[..HEADER_SIZE + |m.payload|] ==
          Header(messageId, m.tag, |m.payload|, if m.endOfMessage then 1 else 0, 0) + m.payload
    {
      var tail := bytes[HEADER_SIZE + |m.payload|..];
      var header := Header(messageId, m.tag, |m.payload|, if m.endOfMessage then 1 else 0, 0);
      assert bytes == header + (m.payload + tail);
      HeaderFields(messageId, m.tag, |m.payload|, if m.endOfMessage then 1 else 0, 0, m.payload + tail);
      assert bytes[HEADER_SIZE..HEADER_SIZE + |m.payload|] == m.payload;
    }
  }

  /** Decoding an encoded message gives it back, and every frame is a multiple of four bytes. */
  lemma MessageRoundTrip(tag: Byte, payload: seq<Byte>, endOfMessage: bool, maximumPayload: nat, maximumAlignment: nat)
    requires tag != 0 && |payload| <= MAXIMUM_PAYLOAD && |payload| <= maximumPayload && maximumAlignment >= 3
    ensures EncodeDevDepMsgOut(tag, payload, endOfMessage).Some? && EncodeDevDepMsgIn(tag, payload, endOfMessage).Some?
    ensures var out := EncodeDevDepMsgOut(tag, payload, endOfMessage).value;
            |out| % 4 == 0 && DecodeDevDepMsgOut(out, maximumPayload) == Some(DevDepMessage(tag, endOfMessage, payload))
    ensures var in_ := EncodeDevDepMsgIn(tag, payload, endOfMessage).value;
            |in_| % 4 == 0
            && DecodeDevDepMsgIn(in_, tag, maximumPayload, maximumAlignment) == Some(DevDepMessage(tag, endOfMessage, payload))
  {
    var m := DevDepMessage(tag, endOfMessage, payload);
    var out := EncodeDevDepMsgOut(tag, payload, endOfMessage).value;
    var in_ := EncodeDevDepMsgIn(tag, payload, endOfMessage).value;
    var attributes := if endOfMessage then 1 else 0;
    assert out[..HEADER_SIZE + |payload|] == Header(DEV_DEP_MSG_OUT, tag, |payload|, attributes, 0) + payload;
    assert in_[..HEADER_SIZE + |payload|] == Header(DEV_DEP_MSG_IN, tag, |payload|, attributes, 0) + payload;
    DecodeMessageExact(out, DEV_DEP_MSG_OUT, tag, maximumPayload, 3, true, m);
    DecodeMessageExact(in_, DEV_DEP_MSG_IN, tag, maximumPayload, maximumAlignment, false, m);
  }

  /** Requests decode exactly from their encodings. */
  lemma RequestRoundTrip(bytes: seq<Byte>, r: Request)
    ensures DecodeRequest(bytes) == Some(r) <==>
            EncodeRequest(r.tag, r.transferSize, r.termcharEnabled, r.termchar) == Some(bytes)
  {
    if EncodeRequest(r.tag, r.transferSize, r.termcharEnabled, r.termchar) == Some(bytes) {
      HeaderFields(REQUEST_DEV_DEP_MSG_IN, r.tag, r.transferSize, if r.termcharEnabled then 2 else 0, r.termchar, []);
      assert bytes + [] == bytes;
    }
    if DecodeRequest(bytes) == Some(r) {
      U32Unique(bytes[4..8]);
      assert ReadU32Le(bytes[4..8], 0) == ReadU32Le(bytes, 4);
      assert bytes == bytes[..4] + bytes[4..8] + bytes[8..12];
      assert bytes[..4] == [REQUEST_DEV_DEP_MSG_IN, r.tag, Complement(r.tag), 0];
      assert bytes[8..12] == [if r.termcharEnabled then 2 else 0, r.termchar, 0, 0];
      assert bytes == Header(REQUEST_DEV_DEP_MSG_IN, r.tag, r.transferSize, if r.termcharEnabled then 2 else 0, r.termchar);
    }
  }

  /** Triggers decode exactly from their encodings. */
  lemma TriggerRoundTrip(bytes: seq<Byte>, tag: Byte)
    ensures DecodeTrigger(bytes) == Some(tag) <==> EncodeTrigger(tag) == Some(bytes)
  {
    if DecodeTrigger(bytes) == Some(tag) {
      assert bytes == [USB488_TRIGGER, tag, Complement(tag), 0] + Zeros(8);
    }
    if EncodeTrigger(tag) == Some(bytes) {
      assert forall k :: 4 <= k < |bytes| ==> bytes[k] == Zeros(8)[k - 4];
    }
  }
}
