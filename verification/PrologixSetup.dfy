/** What a Prologix controller hears of the commands that set up a connection, select a device and set
    the end mode. */
module PrologixSetup {
  import opened Numerals
  import opened PrologixWire
  import opened Sequences
  import opened Visa

  datatype Address = Address(primary: nat, secondary: Option<nat>)

  /** `address_suffix`. */
  function Suffix(a: Address): string {
    if a.secondary.None? then Numeral(a.primary, 10)
    else Numeral(a.primary, 10) + " " + Numeral(96 + a.secondary.value, 10)
  }

  lemma SuffixPrintable(a: Address)
    ensures Printable(Suffix(a))
  {
    NumeralPrintable(a.primary);
    if a.secondary.Some? {
      NumeralPrintable(96 + a.secondary.value);
    }
  }

  /** Where a string is cut by its first blank. */
  function FirstBlank(s: string): nat {
    if s == "" || s[0] == ' ' then 0 else 1 + FirstBlank(s[1..])
  }

  lemma {:induction false} FirstBlankAt(a: string, b: string)
    requires ' ' !in a
    ensures FirstBlank(a + " " + b) == |a| && FirstBlank(a) == |a|
  {
    if a != "" {
      FirstBlankAt(a[1..], b);
      assert (a + " " + b)[1..] == a[1..] + " " + b;
    }
  }

  /** Two devices never look alike on the wire. */
  lemma SuffixInjective(a: Address, b: Address)
    requires Ascii(Suffix(a)) == Ascii(Suffix(b))
    ensures a == b
  {
    SuffixPrintable(a);
    SuffixPrintable(b);
    AsciiInjective(Suffix(a), Suffix(b));
    var m, n := Numeral(a.primary, 10), Numeral(b.primary, 10);
    NumeralPrintable(a.primary);
    NumeralPrintable(b.primary);
    var k := if a.secondary.Some? then Numeral(96 + a.secondary.value, 10) else "";
    var l := if b.secondary.Some? then Numeral(96 + b.secondary.value, 10) else "";
    FirstBlankAt(m, k);
    FirstBlankAt(n, l);
    assert m == Suffix(a)[..FirstBlank(Suffix(a))] && n == Suffix(b)[..FirstBlank(Suffix(b))];
    NumeralInjective(a.primary, b.primary, 10);
    if a.secondary.Some? && b.secondary.Some? {
      assert k == Suffix(a)[|m| + 1..] && l == Suffix(b)[|n| + 1..];
      NumeralInjective(96 + a.secondary.value, 96 + b.secondary.value, 10);
    }
  }

  /** Where a blank cuts a text, and what it cuts it into. */
  lemma BlankCuts(front: string, back: string)
    requires ' ' !in front
    ensures var s := front + " " + back;
            FirstBlank(s) == |front| < |s| && s[..|front|] == front && s[|front| + 1..] == back
  {
    FirstBlankAt(front, back);
  }

  lemma NumberReads(n: nat)
    ensures ' ' !in Numeral(n, 10) && NumeralValue(Numeral(n, 10), 10) == Some(n)
  {
    NumeralPrintable(n);
    NumeralRoundTrip(n, 10);
  }

  /** What a controller reads in a suffix: the primary address, and behind a blank 96 more than the
      secondary address. */
  lemma SuffixReads(a: Address)
    ensures var s := Suffix(a);
            if a.secondary.None? then FirstBlank(s) == |s| && NumeralValue(s, 10) == Some(a.primary)
            else
              var k := FirstBlank(s);
              && k < |s| && NumeralValue(s[..k], 10) == Some(a.primary)
              && NumeralValue(s[k + 1..], 10) == Some(96 + a.secondary.value)
  {
    NumberReads(a.primary);
    if a.secondary.None? {
      FirstBlankAt(Suffix(a), "");
    } else {
      NumberReads(96 + a.secondary.value);
      BlankCuts(Numeral(a.primary, 10), Numeral(96 + a.secondary.value, 10));
    }
  }

  datatype Configuration = Configuration(serial: bool, eotChar: Byte, readTimeout: nat, maximumResponse: nat)

  function FirstLine(): string {
    "++savecfg 0"
  }

  /** The other commands that set up a connection. */
  function SetupLines(c: Configuration): seq<string> {
    ["++mode 1", "++auto 0", "++eos 3", "++eot_char " + Numeral(c.eotChar, 10), "++eot_enable 1",
     "++read_tmo_ms " + Numeral(c.readTimeout, 10), "++ver"]
  }

  function Lines(lines: seq<string>): Bytes {
    if lines == [] then [] else Lines(lines[..|lines| - 1]) + (Ascii(lines[|lines| - 1]) + [LF])
  }

  function Initialization(c: Configuration): Bytes {
    Ascii(FirstLine()) + [LF] + Lines(SetupLines(c))
  }

  /** A command that neither selects an address nor sets the end mode. */
  predicate Neutral(line: string) {
    && Printable(line) && |line| > 4 && line[0] == '+' && line[1] == '+'
    && (line[2] == 'a' ==> line[3] != 'd') && (line[2] == 'e' ==> line[4] != 'i')
  }

  lemma NeutralCommand(line: string)
    requires Neutral(line)
    ensures Plain(Ascii(line)) && IsCommand(Ascii(line))
  {
    PrintableIsPlain(line);
  }

  lemma ObeyNeutral(c: Controller, line: string)
    requires Neutral(line)
    ensures Obey(c, Ascii(line)) == c.(log := c.log + [Command(c.address, Ascii(line))])
  {
    var text := Ascii(line);
    assert text[2] == line[2] as int && text[3] == line[3] as int && text[4] == line[4] as int;
    assert Ascii("++addr ")[2] == 'a' as int && Ascii("++addr ")[3] == 'd' as int;
    assert !(Ascii("++addr ") <= text);
    assert Ascii("++eoi 1")[2] == 'e' as int && Ascii("++eoi 1")[4] == 'i' as int;
    assert Ascii("++eoi 0")[2] == 'e' as int && Ascii("++eoi 0")[4] == 'i' as int;
  }

  lemma SetupLinesNeutral(c: Configuration)
    ensures forall k :: 0 <= k < |SetupLines(c)| ==> Neutral(SetupLines(c)[k])
  {
    NumeralPrintable(c.eotChar);
    NumeralPrintable(c.readTimeout);
  }

  /** Commands as they are heard, one after the other, at one address. */
  function Commands(address: Bytes, lines: seq<string>): (frames: seq<Frame>)
    ensures |frames| == |lines|
    ensures forall k :: 0 <= k < |lines| ==> frames[k] == Command(address, Ascii(lines[k]))
  {
    seq(|lines|, k requires 0 <= k < |lines| => Command(address, Ascii(lines[k])))
  }

  /** A whole command given to an idle controller. */
  lemma FeedNeutral(c: Controller, line: string)
    requires c.Idle() && Neutral(line)
    ensures FeedAll(c, Ascii(line) + [LF]) == c.(log := c.log + [Command(c.address, Ascii(line))])
  {
    NeutralCommand(line);
    FeedCommand(c, Ascii(line));
    ObeyNeutral(c, line);
  }

  lemma {:induction false} FeedLines(c: Controller, lines: seq<string>)
    requires c.Idle() && forall k :: 0 <= k < |lines| ==> Neutral(lines[k])
    ensures FeedAll(c, Lines(lines)) == c.(log := c.log + Commands(c.address, lines))
    decreases |lines|
  {
    if lines == [] {
      assert c.log + Commands(c.address, lines) == c.log;
    } else {
      var front, last := lines[..|lines| - 1], lines[|lines| - 1];
      FeedLines(c, front);
      FeedConcat(c, Lines(front), Ascii(last) + [LF]);
      FeedNeutral(FeedAll(c, Lines(front)), last);
      assert Commands(c.address, front) + [Command(c.address, Ascii(last))] == Commands(c.address, lines);
      Regroup(c.log, Commands(c.address, front), [Command(c.address, Ascii(last))]);
    }
  }

  /** Whether an unfinished line turns the command behind it into data. */
  predicate Spoils(line: Bytes) {
    line != [] && !(line[0] == PLUS && (|line| == 1 || line[1] == PLUS))
  }

  lemma SpoilsExactly(line: Bytes, first: Bytes)
    requires IsCommand(first)
    ensures IsCommand(line + first) <==> !Spoils(line)
  {
    var whole := line + first;
    assert whole[0] == if line == [] then first[0] else line[0];
    assert whole[1] == if |line| < 2 then first[1 - |line|] else line[1];
  }

  lemma FeedPlus(c: Controller)
    ensures FeedAll(c, [PLUS]) == c.(line := c.line + [PLUS], escaped := false)
  {
    FeedLast(c, [], PLUS);
    assert [] + [PLUS] == [PLUS];
  }

  /** The first command ends whatever line was unfinished. */
  lemma FirstLineEnds(c: Controller, first: Bytes)
    requires Plain(first) && IsCommand(first)
    ensures FeedAll(c, first + [LF]) == EndLine(c.(line := c.line + first, escaped := false))
  {
    var rest := first[1..];
    var begun := c.(line := c.line + [PLUS], escaped := false);
    assert [PLUS] + rest == first;
    Regroup([PLUS], rest, [LF]);
    FeedConcat(c, [PLUS], rest + [LF]);
    FeedPlus(c);
    FeedLine(begun, rest);
    Regroup(c.line, [PLUS], rest);
    assert begun.(line := begun.line + rest) == c.(line := c.line + first, escaped := false);
  }

  /** The first frame of a set-up: the first command behind whatever line was unfinished. */
  function OpeningFrame(c: Controller): Frame {
    var line := c.line + Ascii(FirstLine());
    if Spoils(c.line) then Data(c.address, c.sendEnd, Unescape(line)) else Command(c.address, line)
  }

  /** The address after it: an unfinished selection is finished by it. */
  function OpeningAddress(c: Controller): Bytes {
    var line := c.line + Ascii(FirstLine());
    if !Spoils(c.line) && Ascii("++addr ") <= line then line[7..] else c.address
  }

  /** Everything a controller hears of a set-up. */
  function SetupHeard(c: Controller, configuration: Configuration): seq<Frame> {
    [OpeningFrame(c)] + Commands(OpeningAddress(c), SetupLines(configuration))
  }

  lemma FirstLineCommand()
    ensures Plain(Ascii(FirstLine())) && IsCommand(Ascii(FirstLine()))
  {
  }

  lemma FirstLineIsNotEoi(line: Bytes)
    ensures line + Ascii(FirstLine()) != Ascii("++eoi 1") && line + Ascii(FirstLine()) != Ascii("++eoi 0")
  {
  }

  lemma FeedOpening(c: Controller)
    ensures FeedAll(c, Ascii(FirstLine()) + [LF])
         == Controller(OpeningAddress(c), c.sendEnd, [], false, c.log + [OpeningFrame(c)])
  {
    FirstLineCommand();
    FirstLineEnds(c, Ascii(FirstLine()));
    SpoilsExactly(c.line, Ascii(FirstLine()));
    FirstLineIsNotEoi(c.line);
  }

  /** The state of a controller after a set-up, whatever it was before. */
  lemma FeedInitialization(c: Controller, configuration: Configuration)
    ensures FeedAll(c, Initialization(configuration))
         == Controller(OpeningAddress(c), c.sendEnd, [], false, c.log + SetupHeard(c, configuration))
  {
    FeedConcat(c, Ascii(FirstLine()) + [LF], Lines(SetupLines(configuration)));
    FeedOpening(c);
    SetupLinesNeutral(configuration);
    FeedLines(FeedAll(c, Ascii(FirstLine()) + [LF]), SetupLines(configuration));
    Regroup(c.log, [OpeningFrame(c)], Commands(OpeningAddress(c), SetupLines(configuration)));
  }

  lemma OpeningExactly(c: Controller)
    ensures OpeningFrame(c) == Command(c.address, Ascii(FirstLine())) <==> c.line == []
    ensures c.line == [] ==> OpeningAddress(c) == c.address
  {
    if c.line == [] {
      assert c.line + Ascii(FirstLine()) == Ascii(FirstLine());
      assert Ascii("++addr ")[2] != Ascii(FirstLine())[2];
    } else {
      assert |c.line + Ascii(FirstLine())| > |Ascii(FirstLine())|;
    }
  }

  /** The set-up is heard as it was sent, each of its commands by itself and none else, exactly when no
      line was unfinished. */
  lemma SetupExactly(c: Controller, configuration: Configuration)
    ensures FeedAll(c, Initialization(configuration)).log
            == c.log + Commands(c.address, [FirstLine()] + SetupLines(configuration))
            <==> c.line == []
  {
    FeedInitialization(c, configuration);
    OpeningExactly(c);
    var sent := Commands(c.address, [FirstLine()] + SetupLines(configuration));
    var heard := SetupHeard(c, configuration);
    assert sent[0] == Command(c.address, Ascii(FirstLine()));
    if c.log + heard == c.log + sent {
      assert (c.log + heard)[|c.log|] == heard[0] && (c.log + sent)[|c.log|] == sent[0];
    }
    if c.line == [] {
      assert heard == sent;
    }
  }

  /** Only its first command suffers, and it is taken for data exactly when the line spoils it. */
  lemma SetupSurvives(c: Controller, configuration: Configuration)
    ensures var c' := FeedAll(c, Initialization(configuration));
            && c'.Idle() && c'.sendEnd == c.sendEnd && |c'.log| == |c.log| + 1 + |SetupLines(configuration)|
            && c.log + [OpeningFrame(c)] <= c'.log
            && c'.log[|c.log| + 1..] == Commands(c'.address, SetupLines(configuration))
            && (c'.log[|c.log|].Data? <==> Spoils(c.line))
  {
    FeedInitialization(c, configuration);
    var rest := Commands(OpeningAddress(c), SetupLines(configuration));
    Regroup(c.log, [OpeningFrame(c)], rest);
  }

  function AddressLine(suffix: string): string {
    "++addr " + suffix
  }

  lemma FeedAddress(c: Controller, suffix: string)
    requires c.Idle() && Printable(suffix)
    ensures FeedAll(c, Ascii(AddressLine(suffix)) + [LF])
         == c.(log := c.log + [Command(c.address, Ascii(AddressLine(suffix)))], address := Ascii(suffix))
  {
    PrintableIsPlain(AddressLine(suffix));
    AsciiConcat("++addr ", suffix);
    FeedCommand(c, Ascii(AddressLine(suffix)));
    assert (Ascii("++addr ") + Ascii(suffix))[7..] == Ascii(suffix);
  }

  function SendEndLine(sendEnd: bool): string {
    if sendEnd then "++eoi 1" else "++eoi 0"
  }

  lemma SendEndCommand(sendEnd: bool)
    ensures Plain(Ascii(SendEndLine(sendEnd))) && IsCommand(Ascii(SendEndLine(sendEnd)))
  {
    PrintableIsPlain(SendEndLine(sendEnd));
  }

  lemma ObeySendEnd(c: Controller, sendEnd: bool)
    ensures var text := Ascii(SendEndLine(sendEnd));
            Obey(c, text) == c.(log := c.log + [Command(c.address, text)], sendEnd := sendEnd)
  {
    var text := Ascii(SendEndLine(sendEnd));
    assert text[2] != Ascii("++addr ")[2];
    assert !(Ascii("++addr ") <= text);
    assert Ascii("++eoi 1")[6] != Ascii("++eoi 0")[6];
  }

  lemma FeedSendEnd(c: Controller, sendEnd: bool)
    requires c.Idle()
    ensures FeedAll(c, Ascii(SendEndLine(sendEnd)) + [LF])
         == c.(log := c.log + [Command(c.address, Ascii(SendEndLine(sendEnd)))], sendEnd := sendEnd)
  {
    var text := Ascii(SendEndLine(sendEnd));
    SendEndCommand(sendEnd);
    FeedCommand(c, text);
    ObeySendEnd(c, sendEnd);
  }

  lemma PartlyFront(c: Controller, front: Bytes, rest: Bytes)
    ensures Partly(c, front + rest, FeedAll(c, front))
  {
    assert (front + rest)[..|front|] == front;
    assert |front| <= |front + rest|;
  }

  lemma CutCommand(c: Controller, line: Bytes)
    requires c.Idle() && Plain(line) && IsCommand(line)
    ensures FeedAll(c, line) == c.(line := line) && Partly(c, line + [LF], FeedAll(c, line)) && !Spoils(line)
  {
    FeedPlain(c, line);
    assert c.line + line == line;
    PartlyFront(c, line, [LF]);
  }

  lemma AddressLineCommand(address: Address)
    ensures Plain(Ascii(AddressLine(Suffix(address)))) && IsCommand(Ascii(AddressLine(Suffix(address))))
    ensures Ascii(AddressLine(Suffix(address))) == Ascii("++addr ") + Ascii(Suffix(address))
  {
    SuffixPrintable(address);
    PrintableIsPlain(AddressLine(Suffix(address)));
    AsciiConcat("++addr ", Suffix(address));
  }

  lemma OpeningOf(c: Controller, suffix: Bytes)
    requires c.line == Ascii("++addr ") + suffix && !Spoils(c.line)
    ensures OpeningFrame(c) == Command(c.address, c.line + Ascii(FirstLine()))
    ensures OpeningAddress(c) == suffix + Ascii(FirstLine())
  {
    var line := c.line + Ascii(FirstLine());
    Regroup(Ascii("++addr "), suffix, Ascii(FirstLine()));
    assert line[..7] == Ascii("++addr ") && line[7..] == suffix + Ascii(FirstLine());
  }

  /** A selection that is cut off before its line feed is finished by the next set-up: the controller
      selects an address that no device has. */
  lemma CutSelection(c: Controller, address: Address, configuration: Configuration)
    requires c.Idle()
    ensures var line := Ascii(AddressLine(Suffix(address)));
            var cut := FeedAll(c, line);
            var c' := FeedAll(cut, Initialization(configuration));
            && Partly(c, line + [LF], cut) && !Spoils(cut.line)
            && c.log + [Command(c.address, line + Ascii(FirstLine()))] <= c'.log
            && c'.address == Ascii(Suffix(address) + FirstLine())
            && forall a: Address :: c'.address != Ascii(Suffix(a))
  {
    var line := Ascii(AddressLine(Suffix(address)));
    var cut := FeedAll(c, line);
    AddressLineCommand(address);
    CutCommand(c, line);
    FeedInitialization(cut, configuration);
    OpeningOf(cut, Ascii(Suffix(address)));
    AsciiConcat(Suffix(address), FirstLine());
    forall a: Address ensures Ascii(Suffix(address) + FirstLine()) != Ascii(Suffix(a)) {
      NoSuchSuffix(Suffix(address), a);
    }
  }

  /** A suffix is made of digits and a blank. */
  lemma SuffixCharacters(a: Address)
    ensures '+' !in Suffix(a)
  {
    NumeralHasNoPlus(a.primary);
    if a.secondary.Some? {
      NumeralHasNoPlus(96 + a.secondary.value);
    }
  }

  lemma {:induction false} NumeralHasNoPlus(n: nat)
    ensures '+' !in Numeral(n, 10)
  {
    if n >= 10 {
      NumeralHasNoPlus(n / 10);
    }
  }

  lemma NoSuchSuffix(front: string, a: Address)
    ensures Ascii(front + FirstLine()) != Ascii(Suffix(a))
  {
    if Ascii(front + FirstLine()) == Ascii(Suffix(a)) {
      var k := |front|;
      assert (front + FirstLine())[k] == '+';
      assert Ascii(front + FirstLine())[k] == PLUS;
      SuffixPrintable(a);
      assert Ascii(Suffix(a))[k] == Suffix(a)[k] as int;
      assert Suffix(a)[k] == '+';
      SuffixCharacters(a);
      assert false;
    }
  }

  lemma {:induction false} EscapePrefix(data: Bytes, n: nat)
    requires n <= |data|
    ensures Escape(data[..n]) <= Escape(data)
    decreases |data|
  {
    if n == |data| {
      assert data[..n] == data;
    } else {
      var before := data[..|data| - 1];
      EscapePrefix(before, n);
      assert before[..n] == data[..n];
    }
  }

  lemma EscapedSpoils(data: Bytes)
    requires data != []
    ensures Escape(data) != [] && Spoils(Escape(data))
  {
    EscapedIsNoCommand(data);
    assert |Escape(data)| > 0;
  }

  lemma PartlyPrefix(c: Controller, whole: Bytes, part: Bytes)
    requires part <= whole
    ensures Partly(c, whole + [LF], FeedAll(c, part))
  {
    var rest := whole[|part|..];
    assert part + (rest + [LF]) == whole + [LF];
    PartlyFront(c, part, rest + [LF]);
  }

  /** A write that is cut off behind `n` of its bytes still reaches the device: with the first command of
      the next set-up at its end. */
  lemma CutWrite(c: Controller, data: Bytes, n: nat, configuration: Configuration)
    requires c.Idle() && 0 < n <= |data|
    ensures var cut := FeedAll(c, Escape(data[..n]));
            && Partly(c, Escape(data) + [LF], cut)
            && c.log + [Data(c.address, c.sendEnd, data[..n] + Ascii(FirstLine()))]
               <= FeedAll(cut, Initialization(configuration)).log
  {
    FeedEscaped(c, data[..n]);
    EscapePrefix(data, n);
    PartlyPrefix(c, Escape(data), Escape(data[..n]));
    EscapedSpoils(data[..n]);
    FeedInitialization(FeedAll(c, Escape(data[..n])), configuration);
    UnescapeConcat(data[..n], Ascii(FirstLine()));
    FirstLineCommand();
    UnescapePlain(Ascii(FirstLine()));
  }

  lemma {:induction false} UnescapePlain(line: Bytes)
    requires Plain(line)
    ensures Unescape(line) == line
  {
    if line != [] {
      UnescapePlain(line[1..]);
      assert [line[0]] + line[1..] == line;
    }
  }

  // The text of the set-up

  lemma LinesMore(lines: seq<string>, line: string, text: string)
    requires Lines(lines) == Ascii(text)
    ensures Lines(lines + [line]) == Ascii(text + line + "\n")
  {
    assert (lines + [line])[..|lines|] == lines;
    AsciiConcat(text, line);
    AsciiConcat(text + line, "\n");
    assert Ascii("\n") == [LF];
    Regroup(Ascii(text), Ascii(line), [LF]);
  }

  /** The text of a set-up, as it is put together. */
  function InitializationText(c: Configuration): string {
    "++savecfg 0\n++mode 1\n++auto 0\n++eos 3\n++eot_char " + Numeral(c.eotChar, 10)
    + "\n++eot_enable 1\n++read_tmo_ms " + Numeral(c.readTimeout, 10) + "\n++ver\n"
  }

  lemma FirstHalf()
    ensures "++savecfg 0\n++mode 1\n++auto 0\n++eos 3\n++eot_char "
         == "++savecfg 0" + "\n" + "++mode 1\n++auto 0\n++eos 3\n" + "++eot_char "
  {
  }

  lemma FirstLines()
    ensures "++mode 1\n++auto 0\n++eos 3\n" == "" + "++mode 1" + "\n" + "++auto 0" + "\n" + "++eos 3" + "\n"
  {
  }

  lemma SecondHalf()
    ensures "\n++eot_enable 1\n++read_tmo_ms " == "\n" + "++eot_enable 1" + "\n" + "++read_tmo_ms "
    ensures "\n++ver\n" == "\n" + "++ver" + "\n"
  {
  }

  lemma SetupText(c: Configuration, text: string)
    requires text == "" + "++mode 1" + "\n" + "++auto 0" + "\n" + "++eos 3" + "\n"
    ensures Ascii(text + ("++eot_char " + Numeral(c.eotChar, 10)) + "\n" + "++eot_enable 1" + "\n"
                  + ("++read_tmo_ms " + Numeral(c.readTimeout, 10)) + "\n" + "++ver" + "\n")
         == Lines(SetupLines(c))
  {
    var l := SetupLines(c);
    LinesMore([], l[0], "");
    LinesMore([] + [l[0]], l[1], "" + l[0] + "\n");
    LinesMore([] + [l[0]] + [l[1]], l[2], "" + l[0] + "\n" + l[1] + "\n");
    var l3 := [] + [l[0]] + [l[1]] + [l[2]];
    LinesMore(l3, l[3], text);
    LinesMore(l3 + [l[3]], l[4], text + l[3] + "\n");
    LinesMore(l3 + [l[3]] + [l[4]], l[5], text + l[3] + "\n" + l[4] + "\n");
    LinesMore(l3 + [l[3]] + [l[4]] + [l[5]], l[6], text + l[3] + "\n" + l[4] + "\n" + l[5] + "\n");
    assert l3 + [l[3]] + [l[4]] + [l[5]] + [l[6]] == l;
  }

  lemma Assemble(first: string, nl: string, lines: string, eot: string, n: string, enable: string, wait: string,
                 m: string, ver: string)
    ensures first + nl + lines + eot + n + (nl + enable + nl + wait) + m + (nl + ver + nl)
         == first + nl + (lines + (eot + n) + nl + enable + nl + (wait + m) + nl + ver + nl)
  {
  }

  lemma InitializationIsText(c: Configuration)
    ensures Ascii(InitializationText(c)) == Initialization(c)
  {
    FirstHalf();
    SecondHalf();
    FirstLines();
    var n, m := Numeral(c.eotChar, 10), Numeral(c.readTimeout, 10);
    var text := "++mode 1\n++auto 0\n++eos 3\n";
    SetupText(c, text);
    Assemble("++savecfg 0", "\n", text, "++eot_char ", n, "++eot_enable 1", "++read_tmo_ms ", m, "++ver");
    var rest := text + ("++eot_char " + n) + "\n" + "++eot_enable 1" + "\n" + ("++read_tmo_ms " + m) + "\n" + "++ver" + "\n";
    AsciiConcat(FirstLine() + "\n", rest);
    AsciiConcat(FirstLine(), "\n");
    assert Ascii("\n") == [LF];
  }
}
