/** One Prologix controller shared by the sessions of its devices. Each method is one transaction,
    which the controller's gate keeps apart from every other; a cancellation by another thread can set
    the reconnect flag at any point inside it. */
module Prologix {
  import opened Numerals
  import opened PrologixSetup
  import opened PrologixWire
  import opened Sequences
  import opened Visa

  // What a transaction says

  /** What is known of the controller before a transaction. */
  datatype Knowledge = Knowledge(ready: bool, address: Option<string>, sendEnd: Option<bool>)

  /** A network connection starts with an empty line, a serial one goes on with the line that it has. */
  function Connected(c: Controller, configuration: Configuration): Controller {
    if configuration.serial then c else c.(line := [], escaped := false)
  }

  /** The set-up, unless the connection is known to be ready. */
  function Opening(c: Controller, configuration: Configuration, ready: bool): seq<Frame> {
    if ready then [] else SetupHeard(Connected(c, configuration), configuration)
  }

  /** The address behind it. */
  function AddressThen(c: Controller, configuration: Configuration, ready: bool): Bytes {
    if ready then c.address else OpeningAddress(Connected(c, configuration))
  }

  /** The selection of a device, unless it is known to be selected. */
  function Selection(selected: Bytes, cached: Option<string>, suffix: string): seq<Frame> {
    if cached == Some(suffix) then [] else [Command(selected, Ascii(AddressLine(suffix)))]
  }

  /** The choice of an end mode, unless it is known to be chosen. */
  function EndMode(selected: Bytes, cached: Option<bool>, sendEnd: bool): seq<Frame> {
    if cached == Some(sendEnd) then [] else [Command(selected, Ascii(SendEndLine(sendEnd)))]
  }

  /** Set-up, selection, end mode and data. */
  function Delivery(c: Controller, configuration: Configuration, known: Knowledge, suffix: string, sendEnd: bool,
                    data: Bytes): seq<Frame> {
    Opening(c, configuration, known.ready)
    + (Selection(AddressThen(c, configuration, known.ready), known.address, suffix)
       + (EndMode(Ascii(suffix), known.sendEnd, sendEnd) + [Data(Ascii(suffix), sendEnd, data)]))
  }

  /** Set-up, selection and a command to the selected device. */
  function Order(c: Controller, configuration: Configuration, known: Knowledge, suffix: string, line: string): seq<Frame> {
    Opening(c, configuration, known.ready)
    + (Selection(AddressThen(c, configuration, known.ready), known.address, suffix)
       + [Command(Ascii(suffix), Ascii(line))])
  }

  /** Set-up and a command that names its device. */
  function NamedOrder(c: Controller, configuration: Configuration, known: Knowledge, line: string): seq<Frame> {
    Opening(c, configuration, known.ready) + [Command(AddressThen(c, configuration, known.ready), Ascii(line))]
  }

  /** A controller has heard `frames`, in part or in whole, and nothing else. */
  predicate Heard(before: seq<Frame>, after: seq<Frame>, frames: seq<Frame>, whole: bool) {
    before <= after <= before + frames && (whole ==> after == before + frames)
  }

  lemma HeardThen(a: seq<Frame>, b: seq<Frame>, c: seq<Frame>, first: seq<Frame>, then_: seq<Frame>, whole: bool)
    requires Heard(a, b, first, true) && Heard(b, c, then_, whole)
    ensures Heard(a, c, first + then_, whole)
  {
    Regroup(a, first, then_);
  }

  lemma HeardPart(a: seq<Frame>, b: seq<Frame>, first: seq<Frame>, then_: seq<Frame>)
    requires Heard(a, b, first, false)
    ensures Heard(a, b, first + then_, false)
  {
    Regroup(a, first, then_);
  }

  // Answers

  predicate MentionedAt(text: Bytes, word: string, i: nat)
    requires i + |word| <= |text|
  {
    text[i..i + |word|] == Ascii(word)
  }

  predicate Mentions(text: Bytes, word: string) {
    exists i: nat | i + |word| <= |text| :: MentionedAt(text, word, i)
  }

  const VERSION_LIMIT := 256

  /** What arrived in a transaction ends with the answer and its delimiter; if no set-up was needed there
      is nothing else. */
  predicate Answered(before: Bytes, after: Bytes, ready: bool, answer: Bytes, delimiter: Byte, maximum: nat) {
    && before <= after && |before| + |answer| + 1 <= |after|
    && after[|after| - |answer| - 1..] == answer + [delimiter]
    && delimiter !in answer && |answer| <= maximum
    && (ready ==> after == before + answer + [delimiter])
  }

  /** An answer behind a set-up. */
  lemma AnsweredBehind(before: Bytes, middle: Bytes, after: Bytes, ready: bool, answer: Bytes, delimiter: Byte, maximum: nat)
    requires before <= middle && (ready ==> middle == before) && Answered(middle, after, true, answer, delimiter, maximum)
    ensures Answered(before, after, ready, answer, delimiter, maximum)
  {
  }

  function WithoutReturn(line: Bytes): Bytes {
    if line != [] && line[|line| - 1] == CR then line[..|line| - 1] else line
  }

  function Text(bytes: Bytes): (text: string)
    ensures |text| == |bytes|
  {
    seq(|bytes|, i requires 0 <= i < |bytes| => bytes[i] as char)
  }

  /** The status byte in the answer to a serial poll. */
  function StatusByte(line: Bytes): Option<nat> {
    var value := NumeralValue(Text(WithoutReturn(line)), 10);
    if value.Some? && value.value <= 255 then value else None
  }

  lemma TextOfDigits(digits: string)
    requires Printable(digits)
    ensures Text(Ascii(digits)) == digits
  {
  }

  lemma ReturnDropped(digits: string)
    requires Printable(digits)
    ensures WithoutReturn(Ascii(digits)) == Ascii(digits) && WithoutReturn(Ascii(digits) + [CR]) == Ascii(digits)
  {
    var line := Ascii(digits);
    assert digits != "" ==> line[|line| - 1] == digits[|line| - 1] as int;
    assert (line + [CR])[..|line|] == line;
  }

  /** Every status byte is read back from its numeral, with or without a carriage return; nothing beyond
      a byte is taken for one. */
  lemma StatusByteRoundTrip(n: nat)
    ensures StatusByte(Ascii(Numeral(n, 10))) == if n <= 255 then Some(n) else None
    ensures StatusByte(Ascii(Numeral(n, 10)) + [CR]) == if n <= 255 then Some(n) else None
  {
    NumeralRoundTrip(n, 10);
    NumeralPrintable(n);
    TextOfDigits(Numeral(n, 10));
    ReturnDropped(Numeral(n, 10));
  }

  class PrologixController {
    const configuration: Configuration
    var reconnectRequired: bool
    var initialized: bool
    var currentAddress: Option<string>
    var currentSendEnd: Option<bool>
    /** The real controller at the other end. */
    ghost var device: Controller
    /** Every byte that was read from it. */
    ghost var incoming: Bytes
    /** How each use of the connection ended; only `Connect`, `Send`, `Arrive` and `TimeUp` add to it. */
    ghost var outcomes: seq<Status>

    /** Whatever is cached of the controller is so. */
    ghost predicate Valid()
      reads this
    {
      && (initialized ==> device.Idle())
      && (currentAddress.Some? ==> initialized && device.address == Ascii(currentAddress.value))
      && (currentSendEnd.Some? ==> initialized && device.sendEnd == currentSendEnd.value)
    }

    /** The connection itself failed with `status`, at the last of the uses behind the first `from`. */
    ghost predicate Broken(status: Status, from: nat)
      reads this`outcomes
    {
      from < |outcomes| && outcomes[|outcomes| - 1] == status
    }

    /** It did, or something arrived that is no proper answer. */
    ghost predicate Reason(status: Status, from: nat, before: Bytes)
      reads this`outcomes, this`incoming
    {
      Broken(status, from) || (status == ErrorIo && before < incoming)
    }

    /** What the next transaction may rely on. */
    ghost function Known(): Knowledge
      reads this
    {
      if initialized && !reconnectRequired then Knowledge(true, currentAddress, currentSendEnd)
      else Knowledge(false, None, None)
    }

    constructor (configuration: Configuration, ghost device: Controller)
      ensures Valid() && this.configuration == configuration && this.device == device && incoming == []
    {
      this.configuration, this.device, incoming, outcomes := configuration, device, [], [];
      reconnectRequired, initialized, currentAddress, currentSendEnd := false, false, None, None;
    }

    /** Another thread may cancel the transaction at any moment. */
    method Disturb()
      modifies this`reconnectRequired
      ensures old(reconnectRequired) ==> reconnectRequired
    {
      if * {
        reconnectRequired := true;
      }
    }

    method SomeError() returns (status: Status)
      ensures status.Failed()
    {
      status :| status.Failed();
    }

    /** The connection is made, or not. */
    method Connect() returns (status: Status)
      modifies this`device, this`reconnectRequired, this`outcomes
      ensures outcomes == old(outcomes) + [status]
      ensures device == if status.Failed() then old(device) else Connected(old(device), configuration)
    {
      Disturb();
      if * {
        status := SomeError();
      } else {
        status := Success;
        device := Connected(device, configuration);
      }
      outcomes := outcomes + [status];
    }

    /** Bytes are written: all of them on success, some of them otherwise. */
    method Send(bytes: Bytes) returns (status: Status)
      modifies this`device, this`reconnectRequired, this`outcomes
      ensures outcomes == old(outcomes) + [status]
      ensures if status.Failed() then Partly(old(device), bytes, device) else device == FeedAll(old(device), bytes)
      ensures old(device.log) <= device.log <= FeedAll(old(device), bytes).log
    {
      Disturb();
      var amount: nat :| amount <= |bytes|;
      ghost var before := device;
      device := FeedAll(device, bytes[..amount]);
      PartlyLogged(before, bytes, device);
      if * {
        status := SomeError();
      } else if amount == |bytes| {
        status := Success;
        assert bytes[..amount] == bytes;
      } else {
        status := SomeError();
      }
      outcomes := outcomes + [status];
    }

    /** The time is up before an answer is complete. */
    method TimeUp() returns (status: Status)
      modifies this`reconnectRequired, this`outcomes
      ensures status == ErrorTmo && outcomes == old(outcomes) + [status]
    {
      Disturb();
      status := ErrorTmo;
      outcomes := outcomes + [status];
    }

    /** Some bytes arrive, and then perhaps an error. */
    method Arrive() returns (chunk: Bytes, failure: Option<Status>)
      modifies this`incoming, this`reconnectRequired, this`outcomes
      ensures outcomes == old(outcomes) + [if failure.Some? then failure.value else Success]
      ensures incoming == old(incoming) + chunk
      ensures failure.Some? ==> failure.value.Failed()
    {
      Disturb();
      chunk := *;
      incoming := incoming + chunk;
      if * {
        failure := None;
      } else {
        var status := SomeError();
        failure := Some(status);
      }
      outcomes := outcomes + [if failure.Some? then failure.value else Success];
    }

    /** The loop over a chunk: an answer ends with its delimiter, which is the last byte there is. */
    method TakeChunk(delimiter: Byte, maximum: nat, before: Bytes, chunk: Bytes)
      returns (data: Bytes, finished: bool, status: Status)
      requires |before| <= maximum && delimiter !in before
      ensures !finished ==> data == before + chunk && |data| <= maximum && delimiter !in data
      ensures finished ==> (status == Success || status == ErrorIo) && chunk != []
      ensures finished && status == Success <==>
              chunk != [] && chunk[|chunk| - 1] == delimiter && delimiter !in chunk[..|chunk| - 1]
              && |before| + |chunk| - 1 <= maximum
      ensures finished && status == Success ==>
              before + chunk == data + [delimiter] && |data| <= maximum && delimiter !in data
    {
      data, finished, status := before, false, Success;
      var index := 0;
      while index < |chunk|
        invariant 0 <= index <= |chunk| && !finished
        invariant data == before + chunk[..index] && |data| <= maximum && delimiter !in data
        invariant delimiter !in chunk[..index]
      {
        var value := chunk[index];
        if value == delimiter {
          finished := true;
          status := if index + 1 != |chunk| then ErrorIo else Success;
          assert chunk[..index] + [delimiter] == chunk[..index + 1];
          assert index + 1 != |chunk| ==> chunk[..|chunk| - 1][index] == delimiter;
          assert chunk[..|chunk|] == chunk;
          return;
        }
        if |data| >= maximum {
          assert index + 1 == |chunk| ==> chunk[|chunk| - 1] != delimiter;
          return data, true, ErrorIo;
        }
        assert chunk[..index + 1] == chunk[..index] + [value];
        data := data + [value];
        index := index + 1;
      }
      assert chunk[..index] == chunk;
      if chunk != [] {
        assert chunk[|chunk| - 1] in chunk[..index];
      }
    }

    /** `read_until`: on success everything that arrived is the answer and its delimiter. */
    method ReadUntil(delimiter: Byte, maximum: nat) returns (status: Status, data: Bytes)
      modifies this`incoming, this`reconnectRequired, this`outcomes
      ensures old(incoming) <= incoming && old(outcomes) <= outcomes
      ensures status.Failed() ==> Reason(status, |old(outcomes)|, old(incoming))
      ensures !status.Failed() ==> Answered(old(incoming), incoming, true, data, delimiter, maximum)
      ensures status.Failed() ==> data == []
    {
      data := [];
      var patience: nat := *;
      while patience > 0
        invariant incoming == old(incoming) + data && delimiter !in data && |data| <= maximum && old(outcomes) <= outcomes
      {
        var chunk, failure := Arrive();
        var before, finished := data, false;
        data, finished, status := TakeChunk(delimiter, maximum, data, chunk);
        Regroup(old(incoming), before, chunk);
        if finished {
          if status.Failed() {
            data := [];
          } else {
            Regroup(old(incoming), data, [delimiter]);
          }
          return;
        }
        if failure.Some? {
          return failure.value, [];
        }
        patience := patience - 1;
      }
      status := TimeUp();
      data := [];
    }

    /** `ensure_ready`: nothing is said to a controller that is ready, and the whole set-up to any other. */
    method EnsureReady() returns (status: Status)
      requires Valid()
      modifies this
      ensures Valid()
      ensures !status.Failed() ==> initialized && device.address == AddressThen(old(device), configuration, old(initialized))
      ensures old(initialized) ==> unchanged(this) && !status.Failed()
      ensures !old(initialized) && !status.Failed() ==> currentAddress == None && currentSendEnd == None
      ensures Heard(old(device.log), device.log, Opening(old(device), configuration, old(initialized)), !status.Failed())
      ensures old(incoming) <= incoming && old(outcomes) <= outcomes
      ensures status.Failed() ==> Reason(status, |old(outcomes)|, old(incoming))
    {
      if initialized {
        return Success;
      }
      status := Connect();
      if status.Failed() {
        return;
      }
      status := SendSetup();
      if status.Failed() {
        return;
      }
      status := CheckVersion();
      if status.Failed() {
        return;
      }
      currentAddress, currentSendEnd, initialized, reconnectRequired := None, None, true, false;
    }

    /** The text of the set-up is put together and sent. */
    method SendSetup() returns (status: Status)
      modifies this`device, this`reconnectRequired, this`outcomes
      ensures outcomes == old(outcomes) + [status]
      ensures Heard(old(device.log), device.log, SetupHeard(old(device), configuration), !status.Failed())
      ensures !status.Failed() ==> device.Idle() && device.address == OpeningAddress(old(device))
    {
      FeedInitialization(device, configuration);
      var initialization := "++savecfg 0\n++mode 1\n++auto 0\n++eos 3\n++eot_char ";
      initialization := initialization + Numeral(configuration.eotChar, 10);
      initialization := initialization + "\n++eot_enable 1\n++read_tmo_ms ";
      initialization := initialization + Numeral(configuration.readTimeout, 10);
      initialization := initialization + "\n++ver\n";
      InitializationIsText(configuration);
      status := Send(Ascii(initialization));
    }

    /** The controller says what it is. */
    method CheckVersion() returns (status: Status)
      modifies this`incoming, this`reconnectRequired, this`outcomes
      ensures old(incoming) <= incoming && old(outcomes) <= outcomes
      ensures status.Failed() ==> Reason(status, |old(outcomes)|, old(incoming))
      ensures !status.Failed() ==> exists version ::
        && Answered(old(incoming), incoming, true, version, LF, VERSION_LIMIT)
        && Mentions(WithoutReturn(version), "Prologix") && Mentions(WithoutReturn(version), "GPIB")
    {
      var version;
      status, version := ReadUntil(LF, VERSION_LIMIT);
      if status.Failed() {
        return;
      }
      ghost var line := version;
      version := WithoutReturn(version);
      if !Mentions(version, "Prologix") || !Mentions(version, "GPIB") {
        return ErrorIo;
      }
      assert Answered(old(incoming), incoming, true, line, LF, VERSION_LIMIT);
    }

    method Invalidate()
      modifies this`initialized, this`currentAddress, this`currentSendEnd, this`reconnectRequired
      ensures Valid() && !initialized
    {
      initialized, currentAddress, currentSendEnd, reconnectRequired := false, None, None, false;
    }

    /** The first half of `transact`, once the gate is passed. */
    method Enter() returns (status: Status)
      requires Valid()
      modifies this
      ensures Valid()
      ensures var known := old(Known());
              && Heard(old(device.log), device.log, Opening(old(device), configuration, known.ready), !status.Failed())
              && (!status.Failed() ==>
                  && initialized && currentAddress == known.address && currentSendEnd == known.sendEnd
                  && device.address == AddressThen(old(device), configuration, known.ready))
              && (known.ready ==> incoming == old(incoming))
      ensures old(incoming) <= incoming && old(outcomes) <= outcomes
      ensures status.Failed() ==> Reason(status, |old(outcomes)|, old(incoming))
    {
      if reconnectRequired {
        Invalidate();
      }
      status := EnsureReady();
    }

    /** The second half; `interrupted` is the result of an operation that was cancelled or timed out. */
    method Leave(status: Status, interrupted: Option<Status>) returns (result: Status)
      requires !status.Failed() ==> Valid()
      requires interrupted.Some? ==> interrupted.value.Interrupted()
      modifies this`initialized, this`currentAddress, this`currentSendEnd, this`reconnectRequired
      ensures Valid()
      ensures result == if interrupted.Some? then interrupted.value else status
      ensures status.Failed() ==> !initialized
    {
      if status.Failed() || reconnectRequired {
        Invalidate();
      }
      result := if interrupted.Some? then interrupted.value else status;
    }

    method WriteCommand(line: string) returns (status: Status)
      requires Neutral(line) && device.Idle()
      modifies this`device, this`reconnectRequired, this`outcomes
      ensures old(outcomes) <= outcomes && (status.Failed() ==> Broken(status, |old(outcomes)|))
      ensures Heard(old(device.log), device.log, [Command(old(device.address), Ascii(line))], !status.Failed())
      ensures !status.Failed() ==>
        device == old(device).(log := old(device.log) + [Command(old(device.address), Ascii(line))])
    {
      FeedNeutral(device, line);
      status := Send(Ascii(line) + [LF]);
    }

    /** `select_address`. On success the controller's own address is the session's. */
    method SelectAddress(address: Address) returns (status: Status)
      requires Valid() && initialized
      modifies this`device, this`reconnectRequired, this`currentAddress, this`outcomes
      ensures old(outcomes) <= outcomes && (status.Failed() ==> Broken(status, |old(outcomes)|))
      ensures !status.Failed() ==>
        Valid() && device.address == Ascii(Suffix(address)) && device.sendEnd == old(device.sendEnd)
      ensures Heard(old(device.log), device.log, Selection(old(device.address), old(currentAddress), Suffix(address)), !status.Failed())
    {
      var suffix := Suffix(address);
      if currentAddress.Some? && currentAddress.value == suffix {
        return Success;
      }
      SuffixPrintable(address);
      FeedAddress(device, suffix);
      status := Send(Ascii("++addr " + suffix) + [LF]);
      if !status.Failed() {
        currentAddress := Some(suffix);
      }
    }

    /** The part of `write` that sets the EOI mode. */
    method SelectSendEnd(sendEnd: bool) returns (status: Status)
      requires Valid() && initialized
      modifies this`device, this`reconnectRequired, this`currentSendEnd, this`outcomes
      ensures old(outcomes) <= outcomes && (status.Failed() ==> Broken(status, |old(outcomes)|))
      ensures !status.Failed() ==> Valid() && device.sendEnd == sendEnd && device.address == old(device.address)
      ensures Heard(old(device.log), device.log, EndMode(old(device.address), old(currentSendEnd), sendEnd), !status.Failed())
    {
      if currentSendEnd.Some? && currentSendEnd.value == sendEnd {
        return Success;
      }
      FeedSendEnd(device, sendEnd);
      status := Send(Ascii(if sendEnd then "++eoi 1" else "++eoi 0") + [LF]);
      if !status.Failed() {
        currentSendEnd := Some(sendEnd);
      }
    }

    /** The loop that quotes the data. */
    method Encode(data: Bytes) returns (encoded: Bytes)
      ensures encoded == Escape(data) + [LF]
    {
      encoded := [];
      var index := 0;
      while index < |data|
        invariant 0 <= index <= |data|
        invariant encoded == Escape(data[..index])
      {
        var value := data[index];
        if value == CR || value == LF || value == ESC || value == PLUS {
          encoded := encoded + [ESC];
        }
        encoded := encoded + [value];
        index := index + 1;
        assert data[..index][..index - 1] == data[..index - 1];
      }
      assert data[..index] == data;
      encoded := encoded + [LF];
    }

    /** `write`: the controller hears the set-up, the selection and the end mode, each unless it is known,
        and then the data for the session's own device; or a part of that, if the write fails. */
    method Write(address: Address, data: Bytes, sendEnd: bool, gate: Option<Status>, interrupted: Option<Status>)
      returns (status: Status)
      requires Valid()
      requires gate.Some? ==> gate.value.Interrupted()
      requires interrupted.Some? ==> interrupted.value.Interrupted()
      modifies this
      ensures Valid()
      ensures status.Failed() ==>
        gate == Some(status) || interrupted == Some(status) || Reason(status, |old(outcomes)|, old(incoming))
      ensures old(Known()).ready ==> incoming == old(incoming)
      ensures Heard(old(device.log), device.log,
                    Delivery(old(device), configuration, old(Known()), Suffix(address), sendEnd, data), !status.Failed())
    {
      if gate.Some? {
        return gate.value;
      }
      ghost var known := Known();
      ghost var opening := Opening(device, configuration, known.ready);
      ghost var rest := Selection(AddressThen(device, configuration, known.ready), known.address, Suffix(address))
                        + (EndMode(Ascii(Suffix(address)), known.sendEnd, sendEnd) + [Data(Ascii(Suffix(address)), sendEnd, data)]);
      status := Enter();
      HeardPart(old(device.log), device.log, opening, rest);
      if !status.Failed() {
        ghost var entered := device.log;
        status := Deliver(address, data, sendEnd);
        HeardThen(old(device.log), entered, device.log, opening, rest, !status.Failed());
      }
      status := Leave(status, interrupted);
    }

    method Deliver(address: Address, data: Bytes, sendEnd: bool) returns (status: Status)
      requires Valid() && initialized
      modifies this`device, this`reconnectRequired, this`currentAddress, this`currentSendEnd, this`outcomes
      ensures old(outcomes) <= outcomes && (status.Failed() ==> Broken(status, |old(outcomes)|))
      ensures !status.Failed() ==> Valid()
      ensures var suffix := Suffix(address);
              Heard(old(device.log), device.log,
                    Selection(old(device.address), old(currentAddress), suffix)
                    + (EndMode(Ascii(suffix), old(currentSendEnd), sendEnd) + [Data(Ascii(suffix), sendEnd, data)]),
                    !status.Failed())
    {
      ghost var suffix := Suffix(address);
      ghost var selection := Selection(device.address, currentAddress, suffix);
      ghost var mode := EndMode(Ascii(suffix), currentSendEnd, sendEnd);
      ghost var frame := [Data(Ascii(suffix), sendEnd, data)];
      status := SelectAddress(address);
      HeardPart(old(device.log), device.log, selection, mode + frame);
      if status.Failed() {
        return;
      }
      ghost var selected := device.log;
      status := SelectSendEnd(sendEnd);
      HeardPart(selected, device.log, mode, frame);
      HeardThen(old(device.log), selected, device.log, selection, mode + frame, false);
      if status.Failed() {
        return;
      }
      ghost var chosen := device.log;
      status := SendData(data);
      HeardThen(selected, chosen, device.log, mode, frame, !status.Failed());
      HeardThen(old(device.log), selected, device.log, selection, mode + frame, !status.Failed());
    }

    method SendData(data: Bytes) returns (status: Status)
      requires device.Idle()
      modifies this`device, this`reconnectRequired, this`outcomes
      ensures old(outcomes) <= outcomes && (status.Failed() ==> Broken(status, |old(outcomes)|))
      ensures Heard(old(device.log), device.log, [Data(old(device.address), old(device.sendEnd), data)], !status.Failed())
      ensures !status.Failed() ==>
        device == old(device).(log := old(device.log) + [Data(old(device.address), old(device.sendEnd), data)])
    {
      var encoded := Encode(data);
      FeedData(device, data);
      status := Send(encoded);
    }

    /** A transaction's selection and one command to the selected device. */
    method Ask(address: Address, line: string) returns (status: Status)
      requires Valid() && initialized && Neutral(line)
      modifies this`device, this`reconnectRequired, this`currentAddress, this`outcomes
      ensures old(outcomes) <= outcomes && (status.Failed() ==> Broken(status, |old(outcomes)|))
      ensures !status.Failed() ==> Valid()
      ensures Heard(old(device.log), device.log,
                    Selection(old(device.address), old(currentAddress), Suffix(address)) + [Command(Ascii(Suffix(address)), Ascii(line))],
                    !status.Failed())
    {
      ghost var selection := Selection(device.address, currentAddress, Suffix(address));
      ghost var frame := [Command(Ascii(Suffix(address)), Ascii(line))];
      status := SelectAddress(address);
      HeardPart(old(device.log), device.log, selection, frame);
      if status.Failed() {
        return;
      }
      ghost var selected := device.log;
      status := WriteCommand(line);
      HeardThen(old(device.log), selected, device.log, selection, frame, !status.Failed());
    }

    /** `Enter` and `Ask`. */
    method Begin(address: Address, line: string) returns (status: Status)
      requires Valid() && Neutral(line)
      modifies this
      ensures !status.Failed() ==> Valid()
      ensures Heard(old(device.log), device.log, Order(old(device), configuration, old(Known()), Suffix(address), line), !status.Failed())
      ensures old(outcomes) <= outcomes && (status.Failed() ==> Reason(status, |old(outcomes)|, old(incoming)))
      ensures old(incoming) <= incoming && (old(Known()).ready ==> incoming == old(incoming))
    {
      ghost var known := Known();
      ghost var opening := Opening(device, configuration, known.ready);
      ghost var rest := Selection(AddressThen(device, configuration, known.ready), known.address, Suffix(address))
                        + [Command(Ascii(Suffix(address)), Ascii(line))];
      status := Enter();
      HeardPart(old(device.log), device.log, opening, rest);
      if status.Failed() {
        return;
      }
      ghost var entered := device.log;
      status := Ask(address, line);
      HeardThen(old(device.log), entered, device.log, opening, rest, !status.Failed());
    }

    /** `read`: the session's own device is asked, and what arrives up to the end character is the
        response. */
    method Read(address: Address, gate: Option<Status>, interrupted: Option<Status>)
      returns (status: Status, response: Bytes)
      requires Valid()
      requires gate.Some? ==> gate.value.Interrupted()
      requires interrupted.Some? ==> interrupted.value.Interrupted()
      modifies this
      ensures Valid()
      ensures status.Failed() ==>
        gate == Some(status) || interrupted == Some(status) || Reason(status, |old(outcomes)|, old(incoming))
      ensures Heard(old(device.log), device.log,
                    Order(old(device), configuration, old(Known()), Suffix(address), "++read eoi"), !status.Failed())
      ensures !status.Failed() ==>
        Answered(old(incoming), incoming, old(Known()).ready, response, configuration.eotChar, configuration.maximumResponse)
    {
      response := [];
      if gate.Some? {
        return gate.value, response;
      }
      status := Begin(address, "++read eoi");
      if !status.Failed() {
        ghost var asked := incoming;
        status, response := ReadUntil(configuration.eotChar, configuration.maximumResponse);
        if !status.Failed() {
          AnsweredBehind(old(incoming), asked, incoming, old(Known()).ready, response, configuration.eotChar,
                         configuration.maximumResponse);
        }
      }
      status := Leave(status, interrupted);
    }

    /** `clear`. */
    method Clear(address: Address, gate: Option<Status>, interrupted: Option<Status>) returns (status: Status)
      requires Valid()
      requires gate.Some? ==> gate.value.Interrupted()
      requires interrupted.Some? ==> interrupted.value.Interrupted()
      modifies this
      ensures Valid()
      ensures status.Failed() ==>
        gate == Some(status) || interrupted == Some(status) || Reason(status, |old(outcomes)|, old(incoming))
      ensures old(Known()).ready ==> incoming == old(incoming)
      ensures Heard(old(device.log), device.log,
                    Order(old(device), configuration, old(Known()), Suffix(address), "++clr"), !status.Failed())
    {
      if gate.Some? {
        return gate.value;
      }
      status := Begin(address, "++clr");
      status := Leave(status, interrupted);
    }

    /** `Enter` and a command that names its device. */
    method BeginNamed(line: string) returns (status: Status)
      requires Valid() && Neutral(line)
      modifies this
      ensures !status.Failed() ==> Valid()
      ensures Heard(old(device.log), device.log, NamedOrder(old(device), configuration, old(Known()), line), !status.Failed())
      ensures old(outcomes) <= outcomes && (status.Failed() ==> Reason(status, |old(outcomes)|, old(incoming)))
      ensures old(incoming) <= incoming && (old(Known()).ready ==> incoming == old(incoming))
    {
      ghost var known := Known();
      ghost var opening := Opening(device, configuration, known.ready);
      ghost var frame := [Command(AddressThen(device, configuration, known.ready), Ascii(line))];
      status := Enter();
      HeardPart(old(device.log), device.log, opening, frame);
      if status.Failed() {
        return;
      }
      ghost var entered := device.log;
      status := WriteCommand(line);
      HeardThen(old(device.log), entered, device.log, opening, frame, !status.Failed());
    }

    /** `trigger`. */
    method Trigger(address: Address, gate: Option<Status>, interrupted: Option<Status>) returns (status: Status)
      requires Valid()
      requires gate.Some? ==> gate.value.Interrupted()
      requires interrupted.Some? ==> interrupted.value.Interrupted()
      modifies this
      ensures Valid()
      ensures status.Failed() ==>
        gate == Some(status) || interrupted == Some(status) || Reason(status, |old(outcomes)|, old(incoming))
      ensures old(Known()).ready ==> incoming == old(incoming)
      ensures Heard(old(device.log), device.log,
                    NamedOrder(old(device), configuration, old(Known()), "++trg " + Suffix(address)), !status.Failed())
    {
      if gate.Some? {
        return gate.value;
      }
      SuffixPrintable(address);
      status := BeginNamed("++trg " + Suffix(address));
      status := Leave(status, interrupted);
    }

    /** One short line with a number in it. */
    method ReadStatusByte() returns (status: Status, statusByte: nat, ghost line: Bytes)
      modifies this`incoming, this`reconnectRequired, this`outcomes
      ensures old(incoming) <= incoming && old(outcomes) <= outcomes
      ensures status.Failed() ==> Reason(status, |old(outcomes)|, old(incoming))
      ensures !status.Failed() ==>
        && statusByte <= 255 && StatusByte(line) == Some(statusByte)
        && Answered(old(incoming), incoming, true, line, LF, 8)
    {
      statusByte := 0;
      var answer;
      status, answer := ReadUntil(LF, 8);
      line := answer;
      if status.Failed() {
        return;
      }
      var value := StatusByte(answer);
      if value.None? {
        status := ErrorIo;
        return;
      }
      statusByte := value.value;
    }

    /** `serial_poll`: the device is named, and the one line that arrives holds its status byte. */
    method SerialPoll(address: Address, gate: Option<Status>, interrupted: Option<Status>)
      returns (status: Status, statusByte: nat)
      requires Valid()
      requires gate.Some? ==> gate.value.Interrupted()
      requires interrupted.Some? ==> interrupted.value.Interrupted()
      modifies this
      ensures Valid()
      ensures status.Failed() ==>
        gate == Some(status) || interrupted == Some(status) || Reason(status, |old(outcomes)|, old(incoming))
      ensures Heard(old(device.log), device.log,
                    NamedOrder(old(device), configuration, old(Known()), "++spoll " + Suffix(address)), !status.Failed())
      ensures !status.Failed() ==> statusByte <= 255 && exists line ::
        && Answered(old(incoming), incoming, old(Known()).ready, line, LF, 8)
        && StatusByte(line) == Some(statusByte)
    {
      statusByte := 0;
      if gate.Some? {
        return gate.value, statusByte;
      }
      SuffixPrintable(address);
      status := BeginNamed("++spoll " + Suffix(address));
      if !status.Failed() {
        ghost var asked := incoming;
        ghost var line;
        status, statusByte, line := ReadStatusByte();
        if !status.Failed() {
          AnsweredBehind(old(incoming), asked, incoming, old(Known()).ready, line, LF, 8);
        }
      }
      status := Leave(status, interrupted);
    }
  }
}
