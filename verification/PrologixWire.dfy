/** The Prologix line protocol as the controller reads it: ESC quotes the next byte, an unquoted line
    feed ends a line, and a line that begins with two plus signs is a command. */
module PrologixWire {
  import opened Numerals
  import opened Sequences
  import opened Visa

  type Bytes = seq<Byte>

  const LF: Byte := 10
  const CR: Byte := 13
  const ESC: Byte := 27
  const PLUS: Byte := 43

  /** The bytes of an ASCII text. */
  function Ascii(text: string): (b: Bytes)
    ensures |b| == |text|
  {
    seq(|text|, i requires 0 <= i < |text| => text[i] as int % 256)
  }

  /** What has come out of the line: data sent to a device, or a command, each with the address that
      was selected at the time. */
  datatype Frame =
    | Data(address: Bytes, sendEnd: bool, data: Bytes)
    | Command(address: Bytes, text: Bytes)

  datatype Controller = Controller(address: Bytes, sendEnd: bool, line: Bytes, escaped: bool, log: seq<Frame>)
  {
    /** Between two lines. */
    predicate Idle() {
      line == [] && !escaped
    }
  }

  predicate IsCommand(line: Bytes) {
    |line| >= 2 && line[0] == PLUS && line[1] == PLUS
  }

  /** The data of a line without its quoting; a quote at the very end stands for itself. */
  function Unescape(line: Bytes): Bytes {
    if line == [] then []
    else if line[0] == ESC && |line| > 1 then [line[1]] + Unescape(line[2..])
    else [line[0]] + Unescape(line[1..])
  }

  function Obey(c: Controller, text: Bytes): Controller {
    var heard := c.(log := c.log + [Command(c.address, text)]);
    if Ascii("++addr ") <= text then heard.(address := text[7..])
    else if text == Ascii("++eoi 1") then heard.(sendEnd := true)
    else if text == Ascii("++eoi 0") then heard.(sendEnd := false)
    else heard
  }

  function EndLine(c: Controller): Controller {
    var line := c.line;
    if IsCommand(line) then Obey(c.(line := []), line)
    else c.(line := [], log := c.log + [Data(c.address, c.sendEnd, Unescape(line))])
  }

  function Feed(c: Controller, b: Byte): Controller {
    if c.escaped then c.(line := c.line + [b], escaped := false)
    else if b == ESC then c.(line := c.line + [b], escaped := true)
    else if b == LF then EndLine(c)
    else c.(line := c.line + [b])
  }

  function FeedAll(c: Controller, bytes: Bytes): Controller {
    if bytes == [] then c else Feed(FeedAll(c, bytes[..|bytes| - 1]), bytes[|bytes| - 1])
  }

  /** Some of `bytes` arrived, in order, and then no more. */
  ghost predicate Partly(c: Controller, bytes: Bytes, c': Controller) {
    exists n: nat :: n <= |bytes| && c' == FeedAll(c, bytes[..n])
  }

  lemma {:induction false} FeedConcat(c: Controller, a: Bytes, b: Bytes)
    ensures FeedAll(c, a + b) == FeedAll(FeedAll(c, a), b)
    decreases |b|
  {
    if b == [] {
      assert a + b == a;
    } else {
      FeedConcat(c, a, b[..|b| - 1]);
      assert (a + b)[..|a + b| - 1] == a + b[..|b| - 1];
    }
  }

  lemma FeedLast(c: Controller, bytes: Bytes, b: Byte)
    ensures FeedAll(c, bytes + [b]) == Feed(FeedAll(c, bytes), b)
  {
    assert (bytes + [b])[..|bytes|] == bytes;
  }

  lemma {:induction false} LogGrows(c: Controller, bytes: Bytes)
    ensures c.log <= FeedAll(c, bytes).log
    decreases |bytes|
  {
    if bytes != [] {
      LogGrows(c, bytes[..|bytes| - 1]);
    }
  }

  /** What arrives in part leaves a part of the log. */
  lemma PartlyLogged(c: Controller, bytes: Bytes, c': Controller)
    requires Partly(c, bytes, c')
    ensures c.log <= c'.log <= FeedAll(c, bytes).log
  {
    var n: nat :| n <= |bytes| && c' == FeedAll(c, bytes[..n]);
    var some, rest := bytes[..n], bytes[n..];
    assert some + rest == bytes;
    LogGrowsOn(c, some, rest);
  }

  lemma LogGrowsOn(c: Controller, a: Bytes, b: Bytes)
    ensures c.log <= FeedAll(c, a).log <= FeedAll(c, a + b).log
  {
    LogGrows(c, a);
    FeedConcat(c, a, b);
    LogGrows(FeedAll(c, a), b);
  }

  predicate Plain(bytes: Bytes) {
    forall k :: 0 <= k < |bytes| ==> bytes[k] != ESC && bytes[k] != LF
  }

  lemma {:induction false} FeedPlain(c: Controller, text: Bytes)
    requires Plain(text) && !c.escaped
    ensures FeedAll(c, text) == c.(line := c.line + text)
    decreases |text|
  {
    if text == [] {
      assert c.line + text == c.line;
    } else {
      FeedPlain(c, text[..|text| - 1]);
      assert c.line + text[..|text| - 1] + [text[|text| - 1]] == c.line + text;
    }
  }

  lemma FeedLine(c: Controller, text: Bytes)
    requires Plain(text) && !c.escaped
    ensures FeedAll(c, text + [LF]) == EndLine(c.(line := c.line + text))
  {
    FeedPlain(c, text);
    FeedLast(c, text, LF);
  }

  /** A whole command to an idle controller. */
  lemma FeedCommand(c: Controller, text: Bytes)
    requires Plain(text) && IsCommand(text) && c.Idle()
    ensures FeedAll(c, text + [LF]) == Obey(c, text)
  {
    FeedLine(c, text);
    assert c.line + text == text;
    assert c.(line := text).(line := []) == c;
  }

  predicate Special(b: Byte) {
    b == CR || b == LF || b == ESC || b == PLUS
  }

  function Quoted(b: Byte): Bytes {
    if Special(b) then [ESC, b] else [b]
  }

  function Escape(data: Bytes): Bytes {
    if data == [] then []
    else
      Escape(data[..|data| - 1]) + Quoted(data[|data| - 1])
  }

  lemma FeedQuoted(c: Controller, b: Byte)
    requires !c.escaped
    ensures FeedAll(c, Quoted(b)) == c.(line := c.line + Quoted(b))
  {
    FeedLast(c, [], b);
    assert [] + [b] == [b];
    if Special(b) {
      FeedLast(c, [], ESC);
      assert [] + [ESC] == [ESC];
      FeedLast(c, [ESC], b);
      assert [ESC] + [b] == [ESC, b];
      Regroup(c.line, [ESC], [b]);
    }
  }

  lemma {:induction false} FeedEscaped(c: Controller, data: Bytes)
    requires c.Idle()
    ensures FeedAll(c, Escape(data)) == c.(line := Escape(data))
    decreases |data|
  {
    if data == [] {
      assert c.(line := []) == c;
    } else {
      var before, b := data[..|data| - 1], data[|data| - 1];
      FeedEscaped(c, before);
      FeedConcat(c, Escape(before), Quoted(b));
      FeedQuoted(c.(line := Escape(before)), b);
    }
  }

  lemma UnescapeQuoted(b: Byte, rest: Bytes)
    ensures Unescape(Quoted(b) + rest) == [b] + Unescape(rest)
  {
    var line := Quoted(b) + rest;
    assert line[|Quoted(b)|..] == rest;
    assert line[0] == Quoted(b)[0];
  }

  /** Escaped data comes back whole, whatever follows it. */
  lemma {:induction false} UnescapeConcat(data: Bytes, rest: Bytes)
    ensures Unescape(Escape(data) + rest) == data + Unescape(rest)
    decreases |data|
  {
    if data == [] {
      assert Escape(data) + rest == rest;
    } else {
      var before, b := data[..|data| - 1], data[|data| - 1];
      UnescapeConcat(before, Quoted(b) + rest);
      UnescapeQuoted(b, rest);
      Regroup(Escape(before), Quoted(b), rest);
      Regroup(before, [b], Unescape(rest));
      assert before + [b] == data;
    }
  }

  lemma {:induction false} EscapedIsNoCommand(data: Bytes)
    ensures !IsCommand(Escape(data))
    ensures Escape(data) != [] ==> Escape(data)[0] != PLUS
    decreases |data|
  {
    if data != [] {
      EscapedIsNoCommand(data[..|data| - 1]);
    }
  }

  /** Quoting loses nothing. */
  lemma EscapeRoundTrip(data: Bytes)
    ensures Unescape(Escape(data)) == data
  {
    UnescapeConcat(data, []);
    assert Escape(data) + [] == Escape(data) && data + [] == data;
  }

  /** Escaped data and a line feed, given to an idle controller, are the data and nothing else. */
  lemma FeedData(c: Controller, data: Bytes)
    requires c.Idle()
    ensures FeedAll(c, Escape(data) + [LF]) == c.(log := c.log + [Data(c.address, c.sendEnd, data)])
  {
    FeedEscaped(c, data);
    FeedLast(c, Escape(data), LF);
    EscapedIsNoCommand(data);
    EscapeRoundTrip(data);
  }

  // Texts

  lemma AsciiConcat(a: string, b: string)
    ensures Ascii(a + b) == Ascii(a) + Ascii(b)
  {
  }

  predicate Printable(text: string) {
    forall k :: 0 <= k < |text| ==> ' ' <= text[k] <= '~'
  }

  lemma PrintableIsPlain(text: string)
    requires Printable(text)
    ensures Plain(Ascii(text))
  {
  }

  lemma {:induction false} NumeralPrintable(n: nat)
    ensures Printable(Numeral(n, 10))
    ensures ' ' !in Numeral(n, 10)
  {
    if n >= 10 {
      NumeralPrintable(n / 10);
    }
  }

  lemma AsciiInjective(a: string, b: string)
    requires Printable(a) && Printable(b) && Ascii(a) == Ascii(b)
    ensures a == b
  {
    forall k | 0 <= k < |a| ensures a[k] == b[k] {
      assert Ascii(a)[k] == Ascii(b)[k];
    }
  }
}
