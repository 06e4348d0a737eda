/** The USBTMC session's reads and writes. Bulk transfers, aborts and clears are answered by the
    environment. */
module UsbTmcSession {
  import opened History
  import opened Sequences
  import opened Visa
  import Protocol = UsbTmcProtocol

  /** One bulk transfer and how it ended: a frame to the device, or the response to a request for
      `remaining` bytes over an endpoint with packets of `packet` bytes. */
  datatype Transfer =
    | Out(frame: seq<Byte>, status: Status, complete: bool)
    | In(tag: Byte, remaining: nat, packet: nat, status: Status, response: seq<Byte>)

  /** The message in a response: it answers the tag, is not larger than asked for, is not cut off by
      the end of the buffer, and either has bytes or ends its message. */
  function Answer(t: Transfer): Option<Protocol.DevDepMessage> {
    if t.Out? || t.status.Failed() || t.packet == 0 || |t.response| == Protocol.HEADER_SIZE + t.remaining + t.packet then None
    else
      var message := Protocol.DecodeDevDepMsgIn(t.response, t.tag, t.remaining, t.packet - 1);
      if message.None? || (message.value.payload == [] && !message.value.endOfMessage) then None else message
  }

  function Content(t: Transfer): seq<Byte> {
    if Answer(t).Some? then Answer(t).value.payload else []
  }

  /** What a transfer that did not succeed ends its operation with. */
  function Failure(t: Transfer): Option<Status> {
    if t.status.Failed() then Some(t.status)
    else if (if t.Out? then t.complete else Answer(t).Some?) then None
    else Some(ErrorIo)
  }

  /** The last transfer, one behind the first `from`, ended in `failure`. */
  predicate LastFailed(transfers: seq<Transfer>, from: nat, failure: Status) {
    from < |transfers| && Failure(transfers[|transfers| - 1]) == Some(failure)
  }

  /** A transfer itself was cancelled or timed out. */
  predicate CutOff(transfers: seq<Transfer>, from: nat) {
    LastFailed(transfers, from, ErrorAbort) || LastFailed(transfers, from, ErrorTmo)
  }

  /** A transfer that was cut off: in which direction, and under which tag. */
  datatype Cut = Cut(bulkIn: bool, tag: Byte)

  function TagOf(t: Transfer): Byte {
    if t.In? then t.tag else if |t.frame| > 1 then t.frame[1] else 0
  }

  function CutOffBy(transfers: seq<Transfer>, from: nat): Option<Cut> {
    if CutOff(transfers, from) then Some(Cut(transfers[|transfers| - 1].In?, TagOf(transfers[|transfers| - 1]))) else None
  }

  /** A step of a recovery, and whether it worked. */
  datatype Attempt = Abort(cut: Cut, worked: bool) | Clear(worked: bool)

  /** A recovery aborts the transfer that was cut off, and clears the device if that does not work. */
  predicate Recovery(before: seq<Attempt>, after: seq<Attempt>, cut: Cut, recovered: bool) {
    || (recovered && after == before + [Abort(cut, true)])
    || after == before + [Abort(cut, false), Clear(recovered)]
  }

  /** The tag behind `tag`, and the one `n` further on. */
  function TagBehind(tag: Byte): Byte {
    if tag == 255 then 1 else tag + 1
  }

  function TagAfter(tag: Byte, n: nat): Byte {
    if n == 0 then tag else TagBehind(TagAfter(tag, n - 1))
  }

  lemma {:induction false} TagsAdvance(tag: Byte, n: nat)
    requires tag != 0
    ensures TagAfter(tag, n) != 0 && TagAfter(tag, n + 1) != TagAfter(tag, n)
  {
    if n > 0 {
      TagsAdvance(tag, n - 1);
    }
  }

  /** The request for data in a frame that went out, if it is one. */
  function RequestOf(t: Transfer): Option<Protocol.Request> {
    if t.Out? then Protocol.DecodeRequest(t.frame) else None
  }

  /** The transfers behind the first `from` are the rounds of a read that wants `first` bytes: a request
      under the next tag for what is still missing, with the reader's termination character, and then the
      response to that request. */
  ghost predicate Rounds(transfers: seq<Transfer>, from: nat, tag: Byte, first: int, options: ReadOptions) {
    forall k :: from <= k < |transfers| ==> RoundAt(transfers, from, tag, first, options, k)
  }

  ghost predicate RoundAt(transfers: seq<Transfer>, from: nat, tag: Byte, first: int, options: ReadOptions, k: nat)
    requires from <= k < |transfers|
  {
    if (k - from) % 2 == 0 then
      && RequestOf(transfers[k]).Some?
      && var request := RequestOf(transfers[k]).value;
         && request.tag == TagAfter(tag, (k - from) / 2)
         && request.transferSize == first - |Brought(Content, transfers[..k], from)|
         && request.termcharEnabled == options.termcharEnabled && request.termchar == options.termchar
    else
      && transfers[k].In? && RequestOf(transfers[k - 1]).Some?
      && transfers[k].tag == RequestOf(transfers[k - 1]).value.tag
      && transfers[k].remaining == RequestOf(transfers[k - 1]).value.transferSize
  }

  lemma RoundsMore(transfers: seq<Transfer>, more: seq<Transfer>, from: nat, tag: Byte, first: int, options: ReadOptions)
    requires from <= |transfers| && transfers <= more && Rounds(transfers, from, tag, first, options)
    requires forall k :: |transfers| <= k < |more| ==> RoundAt(more, from, tag, first, options, k)
    ensures Rounds(more, from, tag, first, options)
  {
    forall k | from <= k < |more| ensures RoundAt(more, from, tag, first, options, k) {
      if k < |transfers| {
        assert RoundAt(transfers, from, tag, first, options, k);
        assert more[..k] == transfers[..k];
      }
    }
  }

  /** One round makes at most two transfers. */
  ghost predicate OneRound(before: seq<Transfer>, after: seq<Transfer>, tag: Byte, remaining: nat, options: ReadOptions) {
    && before <= after && |after| <= |before| + 2
    && (|after| > |before| ==>
          RequestOf(after[|before|]) == Some(Protocol.Request(tag, remaining, options.termcharEnabled, options.termchar)))
    && (|after| > |before| + 1 ==>
          && Failure(after[|before|]).None?
          && after[|before| + 1].In? && after[|before| + 1].tag == tag && after[|before| + 1].remaining == remaining)
  }

  lemma RoundJoins(transfers: seq<Transfer>, after: seq<Transfer>, from: nat, tag: Byte, first: int, options: ReadOptions,
                   rounds: nat, remaining: nat)
    requires |transfers| == from + 2 * rounds && Rounds(transfers, from, tag, first, options)
    requires OneRound(transfers, after, TagAfter(tag, rounds), remaining, options)
    requires remaining == first - |Brought(Content, transfers, from)|
    ensures Rounds(after, from, tag, first, options)
  {
    assert after[..|transfers|] == transfers;
    RoundsMore(transfers, after, from, tag, first, options);
  }

  /** No transfer of the same read follows: it failed, or brought the end of a message. */
  predicate Ends(t: Transfer) {
    Failure(t).Some? || (Answer(t).Some? && Answer(t).value.endOfMessage)
  }

  ghost predicate GoesOn(transfers: seq<Transfer>, from: nat) {
    |transfers| > from ==> !Ends(transfers[|transfers| - 1])
  }

  /** The transfers behind the first `from` are the rounds of a read that held `ahead` already, and each was
      needed. */
  ghost predicate InTurn(transfers: seq<Transfer>, from: nat, tag: Byte, options: ReadOptions, count: nat, ahead: seq<Byte>) {
    && Rounds(transfers, from, tag, count - |ahead|, options)
    && AllNeeded(Content, Ends, EnoughFor(options, count), ahead, transfers, from)
  }

  lemma StillNeedy(transfers: seq<Transfer>, out: Transfer, from: nat, options: ReadOptions, count: nat, ahead: seq<Byte>)
    requires from <= |transfers| && Needy(Content, Ends, EnoughFor(options, count), ahead, transfers, from)
    requires out.Out? && !Ends(out)
    ensures Needy(Content, Ends, EnoughFor(options, count), ahead, transfers + [out], from)
  {
    BroughtMore(Content, transfers, out, from);
    assert Brought(Content, transfers, from) + [] == Brought(Content, transfers, from);
  }

  lemma NeededRound(transfers: seq<Transfer>, after: seq<Transfer>, from: nat, tag: Byte, remaining: nat,
                    options: ReadOptions, count: nat, ahead: seq<Byte>)
    requires from <= |transfers| && AllNeeded(Content, Ends, EnoughFor(options, count), ahead, transfers, from)
    requires Needy(Content, Ends, EnoughFor(options, count), ahead, transfers, from)
    requires OneRound(transfers, after, tag, remaining, options)
    ensures AllNeeded(Content, Ends, EnoughFor(options, count), ahead, after, from)
  {
    if |after| == |transfers| {
      assert after == transfers;
      return;
    }
    var out := after[|transfers|];
    var asked := transfers + [out];
    NeededMore(Content, Ends, EnoughFor(options, count), ahead, transfers, out, from);
    if |after| == |asked| {
      assert after == asked;
    } else {
      StillNeedy(transfers, out, from, options, count, ahead);
      NeededMore(Content, Ends, EnoughFor(options, count), ahead, asked, after[|asked|], from);
      assert after == asked + [after[|asked|]];
    }
  }

  lemma InTurnRound(transfers: seq<Transfer>, after: seq<Transfer>, from: nat, tag: Byte, options: ReadOptions, count: nat,
                    ahead: seq<Byte>, rounds: nat, missing: nat)
    requires |transfers| == from + 2 * rounds && InTurn(transfers, from, tag, options, count, ahead)
    requires Needy(Content, Ends, EnoughFor(options, count), ahead, transfers, from)
    requires missing == count - |ahead + Brought(Content, transfers, from)|
    requires OneRound(transfers, after, TagAfter(tag, rounds), missing, options)
    ensures InTurn(after, from, tag, options, count, ahead)
  {
    RoundJoins(transfers, after, from, tag, count - |ahead|, options, rounds, missing);
    NeededRound(transfers, after, from, TagAfter(tag, rounds), missing, options, count, ahead);
  }

  /** Whole rounds have been made, and what they brought has arrived. */
  ghost predicate Progress(first: seq<Transfer>, before: seq<Byte>, tag: Byte, options: ReadOptions, count: nat,
                           ahead: seq<Byte>, rounds: nat, transfers: seq<Transfer>, arrived: seq<Byte>, nextTag: Byte) {
    && Received(Content, first, before, transfers, arrived)
    && InTurn(transfers, |first|, tag, options, count, ahead)
    && |transfers| == |first| + 2 * rounds && nextTag == TagAfter(tag, rounds)
  }

  lemma ProgressOn(first: seq<Transfer>, before: seq<Byte>, tag: Byte, options: ReadOptions, count: nat, ahead: seq<Byte>,
                   rounds: nat, transfers: seq<Transfer>, arrived: seq<Byte>, nextTag: Byte, missing: nat,
                   transfers': seq<Transfer>, arrived': seq<Byte>)
    requires Progress(first, before, tag, options, count, ahead, rounds, transfers, arrived, nextTag)
    requires Needy(Content, Ends, EnoughFor(options, count), ahead, transfers, |first|)
    requires missing == count - |ahead + Brought(Content, transfers, |first|)|
    requires Received(Content, transfers, arrived, transfers', arrived')
    requires OneRound(transfers, transfers', nextTag, missing, options)
    ensures Received(Content, first, before, transfers', arrived') && InTurn(transfers', |first|, tag, options, count, ahead)
    ensures |transfers'| == |transfers| + 2 ==>
      Progress(first, before, tag, options, count, ahead, rounds + 1, transfers', arrived', TagBehind(nextTag))
  {
    assert Received(Content, first, before, transfers', arrived') by {
      ReceivedThen(Content, first, before, transfers, arrived, transfers', arrived');
    }
    InTurnRound(transfers, transfers', |first|, tag, options, count, ahead, rounds, missing);
  }

  /** Exactly one transfer was made, and its frame is that of the message. */
  predicate Posted(before: seq<Transfer>, after: seq<Transfer>, tag: Byte, payload: seq<Byte>, sendEnd: bool) {
    && before < after && |after| == |before| + 1
    && after[|before|].Out?
    && Protocol.EncodeDevDepMsgOut(tag, payload, sendEnd) == Some(after[|before|].frame)
  }

  class Session {
    const validInterface: bool
    const maximumPacket: nat

    var readAhead: seq<Byte>
    var readAheadEndsMessage: bool
    var usable: bool
    var nextTag: Byte

    /** Every bulk transfer; only `BulkOut` and `BulkIn` add to it. */
    ghost var transfers: seq<Transfer>
    /** Every step of a recovery; only `AbortBulk` and `ProtocolClear` add to it. */
    ghost var attempts: seq<Attempt>
    /** Every payload byte decoded and not thrown away by a discard or a recovery. */
    ghost var arrived: seq<Byte>
    /** The bytes successful reads handed to their callers. */
    ghost var handed: seq<Byte>

    constructor (validInterface: bool, maximumPacket: nat)
      requires validInterface ==> maximumPacket > 0
      ensures Valid() && usable && arrived == []
    {
      this.validInterface, this.maximumPacket := validInterface, maximumPacket;
      readAhead, readAheadEndsMessage, usable, nextTag := [], false, true, 1;
      transfers, attempts, arrived, handed := [], [], [], [];
    }

    ghost predicate Valid()
      reads this
    {
      && (validInterface ==> maximumPacket > 0)
      && nextTag != 0
      && (readAheadEndsMessage ==> readAhead != [])
      && (usable ==> handed + readAhead == arrived)
    }

    /** In the middle of a read the collected bytes are with the reader. */
    ghost predicate Reading(collected: seq<Byte>)
      reads this
    {
      && (validInterface ==> maximumPacket > 0) && usable
      && nextTag != 0
      && (readAheadEndsMessage ==> readAhead != [])
      && handed + collected + readAhead == arrived
    }

    method NextTag() returns (tag: Byte)
      requires nextTag != 0
      modifies this`nextTag
      ensures tag == old(nextTag) && tag != 0 && nextTag == TagBehind(tag) && nextTag != 0 && nextTag != tag
    {
      tag := nextTag;
      nextTag := if nextTag == 255 then 1 else nextTag + 1;
    }

    method RestoreReadAhead(bytes: seq<Byte>)
      modifies this`readAhead
      ensures readAhead == bytes + old(readAhead)
    {
      var index := |bytes|;
      while index > 0
        invariant 0 <= index <= |bytes| && readAhead == bytes[index..] + old(readAhead)
      {
        index := index - 1;
        readAhead := [bytes[index]] + readAhead;
      }
      assert bytes[0..] == bytes;
    }

    method MarkUnusable()
      modifies this`usable
      ensures !usable
    {
      usable := false;
    }

    /** `recover_cancelled_transfer`: abort, then clear, then give the session up. */
    method RecoverCancelledTransfer(bulkIn: bool, tag: Byte) returns (recovered: bool)
      modifies this`readAhead, this`readAheadEndsMessage, this`usable, this`arrived, this`attempts
      ensures Recovery(old(attempts), attempts, Cut(bulkIn, tag), recovered)
      ensures if recovered then readAhead == [] && !readAheadEndsMessage && arrived == handed && usable == old(usable)
              else
                && !usable && readAhead == old(readAhead) && readAheadEndsMessage == old(readAheadEndsMessage)
                && arrived == old(arrived)
    {
      recovered := AbortBulk(bulkIn, tag);
      if !recovered {
        recovered := ProtocolClear();
      }
      if recovered {
        readAhead, readAheadEndsMessage := [], false;
        arrived := handed;
      } else {
        MarkUnusable();
      }
    }

    method AbortBulk(bulkIn: bool, tag: Byte) returns (worked: bool)
      modifies this`attempts
      ensures attempts == old(attempts) + [Abort(Cut(bulkIn, tag), worked)]
    {
      worked := *;
      attempts := attempts + [Abort(Cut(bulkIn, tag), worked)];
    }

    method ProtocolClear() returns (worked: bool)
      modifies this`attempts
      ensures attempts == old(attempts) + [Clear(worked)]
    {
      worked := *;
      attempts := attempts + [Clear(worked)];
    }

    method BulkOut(frame: seq<Byte>) returns (status: Status, complete: bool)
      modifies this`transfers
      ensures transfers == old(transfers) + [Out(frame, status, complete)]
      ensures Received(Content, old(transfers), arrived, transfers, arrived)
    {
      status, complete := *, *;
      Record(Out(frame, status, complete));
    }

    method BulkIn(tag: Byte, remaining: nat) returns (status: Status, response: seq<Byte>)
      modifies this`transfers, this`arrived
      ensures transfers == old(transfers) + [In(tag, remaining, maximumPacket, status, response)]
      ensures arrived == old(arrived) + Content(In(tag, remaining, maximumPacket, status, response))
      ensures Received(Content, old(transfers), old(arrived), transfers, arrived)
    {
      status, response := *, *;
      ghost var t := In(tag, remaining, maximumPacket, status, response);
      Record(t);
      arrived := arrived + Content(t);
    }

    ghost method Record(t: Transfer)
      modifies this`transfers
      ensures transfers == old(transfers) + [t]
      ensures Received(Content, old(transfers), arrived, transfers, arrived + Content(t))
      ensures Content(t) == [] ==> Received(Content, old(transfers), arrived, transfers, arrived)
    {
      ReceivedNothing(Content, transfers, arrived);
      ReceivedMore(Content, transfers, arrived, transfers, arrived, t);
      transfers := transfers + [t];
      assert arrived + [] == arrived;
    }

    /** The `consume` lambda: a decoded payload goes to the reader, and what follows a termination
        character or the count to the read-ahead. */
    method Consume(options: ReadOptions, count: nat, before: seq<Byte>, payload: seq<Byte>, messageEnds: bool)
      returns (collected: seq<Byte>, found: bool, endOfMessage: bool)
      requires Reading(before + payload) && readAhead == [] && |before| < count && NoTermChar(options, before)
      modifies this`readAhead, this`readAheadEndsMessage
      ensures Reading(collected) && |collected| + |readAhead| == |before| + |payload|
      ensures before <= collected && |collected| <= count && (payload != [] ==> |before| < |collected|)
      ensures EndsAsSaid(options, collected, found)
      ensures endOfMessage ==> messageEnds
      ensures messageEnds ==> endOfMessage || readAheadEndsMessage
      ensures !found && |collected| < count ==> readAhead == [] && (messageEnds ==> endOfMessage)
    {
      assert handed + (before + payload) + [] == handed + (before + payload);
      collected, found := Distribute(options, count, before, payload);
      Regroup(handed, collected, readAhead);
      endOfMessage := false;
      if messageEnds {
        if readAhead != [] {
          readAheadEndsMessage := true;
        } else {
          endOfMessage := true;
        }
      }
    }

    /** The loop of `consume`. It stored a trailing byte exactly when the read-ahead, which was
        empty, no longer is. */
    method Distribute(options: ReadOptions, count: nat, before: seq<Byte>, payload: seq<Byte>)
      returns (collected: seq<Byte>, found: bool)
      requires readAhead == [] && |before| < count && NoTermChar(options, before)
      modifies this`readAhead
      ensures collected + readAhead == before + payload
      ensures before <= collected && |collected| <= count && (payload != [] ==> |before| < |collected|)
      ensures EndsAsSaid(options, collected, found)
      ensures readAhead != [] ==> found || |collected| == count
    {
      collected, found := before, false;
      var index := 0;
      while index < |payload|
        invariant 0 <= index <= |payload|
        invariant collected + readAhead == before + payload[..index]
        invariant before <= collected && |collected| <= count
        invariant EndsAsSaid(options, collected, found)
        invariant readAhead != [] ==> found || |collected| == count
        invariant index > 0 ==> |before| < |collected|
      {
        var byte := payload[index];
        assert payload[..index + 1] == payload[..index] + [byte];
        index := index + 1;
        if |collected| == count || found {
          assert collected + (readAhead + [byte]) == (collected + readAhead) + [byte];
          readAhead := readAhead + [byte];
        } else {
          assert readAhead == [] && collected + readAhead == collected;
          assert (collected + [byte])[..|collected|] == collected;
          collected := collected + [byte];
          found := IsTermChar(options, byte);
          assert collected + readAhead == before + (payload[..index - 1] + [byte]);
        }
      }
      assert payload[..index] == payload;
    }

    /** The first loop of `read`: bytes left over from earlier messages. */
    method TakeAhead(options: ReadOptions, count: nat)
      returns (collected: seq<Byte>, found: bool, endOfMessage: bool)
      requires Reading([]) && count > 0
      modifies this`readAhead, this`readAheadEndsMessage
      ensures Reading(collected) && |collected| <= count
      ensures EndsAsSaid(options, collected, found)
      ensures collected + readAhead == old(readAhead)
      ensures !found && |collected| < count ==> readAhead == []
      ensures endOfMessage <==> old(readAheadEndsMessage) && readAhead == []
      ensures readAheadEndsMessage <==> old(readAheadEndsMessage) && !endOfMessage
    {
      collected, found, endOfMessage := PopAhead(options, count);
      assert handed + [] + old(readAhead) == handed + old(readAhead);
      Regroup(handed, collected, readAhead);
    }

    method PopAhead(options: ReadOptions, count: nat) returns (collected: seq<Byte>, found: bool, endOfMessage: bool)
      requires (readAheadEndsMessage ==> readAhead != []) && count > 0
      modifies this`readAhead, this`readAheadEndsMessage
      ensures |collected| <= count && collected + readAhead == old(readAhead) && EndsAsSaid(options, collected, found)
      ensures !found && |collected| < count ==> readAhead == []
      ensures endOfMessage <==> old(readAheadEndsMessage) && readAhead == []
      ensures readAheadEndsMessage <==> old(readAheadEndsMessage) && !endOfMessage
    {
      collected, found, endOfMessage := [], false, false;
      while readAhead != [] && |collected| < count && !found
        invariant |collected| <= count && collected + readAhead == old(readAhead)
        invariant readAheadEndsMessage ==> readAhead != []
        invariant endOfMessage <==> old(readAheadEndsMessage) && readAhead == []
        invariant readAheadEndsMessage <==> old(readAheadEndsMessage) && !endOfMessage
        invariant EndsAsSaid(options, collected, found)
        decreases |readAhead|
      {
        var byte := readAhead[0];
        assert collected + readAhead == (collected + [byte]) + readAhead[1..];
        assert (collected + [byte])[..|collected|] == collected;
        readAhead := readAhead[1..];
        collected := collected + [byte];
        found := IsTermChar(options, byte);
        if readAhead == [] && readAheadEndsMessage {
          endOfMessage := true;
          readAheadEndsMessage := false;
        }
      }
    }

    /** The second loop of `read`: one request and one response per round. */
    method Transfer(options: ReadOptions, count: nat, before: seq<Byte>)
      returns (collected: seq<Byte>, found: bool, endOfMessage: bool, status: Status, cutOff: Option<Cut>)
      requires Reading(before) && |before| < count && NoTermChar(options, before) && readAhead == [] && validInterface
      modifies this`readAhead, this`readAheadEndsMessage, this`nextTag, this`transfers, this`arrived
      ensures Reading(collected) && Received(Content, old(transfers), old(arrived), transfers, arrived)
      ensures InTurn(transfers, |old(transfers)|, old(nextTag), options, count, before)
      ensures cutOff == CutOffBy(transfers, |old(transfers)|)
      ensures status.Failed() ==>
        LastFailed(transfers, |old(transfers)|, status) || (status == ErrorInvSize && count > Protocol.MAXIMUM_PAYLOAD)
      ensures cutOff.Some? ==> status.Interrupted()
      ensures !status.Failed() ==> |collected| <= count
      ensures !status.Failed() ==> EndsAsSaid(options, collected, found)
      ensures !status.Failed() ==> found || |collected| == count || endOfMessage
    {
      collected, found, endOfMessage, cutOff, status := before, false, false, None, Success;
      assert handed + before + [] == handed + before;
      ReceivedNothing(Content, transfers, arrived);
      ghost var rounds := 0;
      while |collected| < count && !found && !endOfMessage
        invariant Reading(collected) && handed + before == old(arrived)
        invariant Progress(old(transfers), old(arrived), old(nextTag), options, count, before, rounds, transfers, arrived, nextTag)
        invariant |collected| <= count && !status.Failed()
        invariant endOfMessage || found || |collected| == count || GoesOn(transfers, |old(transfers)|)
        invariant cutOff.None? && !CutOff(transfers, |old(transfers)|)
        invariant EndsAsSaid(options, collected, found)
        invariant |collected| < count && !found && !endOfMessage ==> readAhead == []
        decreases count - |collected|, if endOfMessage then 0 else 1
      {
        collected, found, endOfMessage, status, cutOff :=
          NextTurn(options, count, collected, old(transfers), old(arrived), old(nextTag), before, rounds);
        if status.Failed() {
          return;
        }
        rounds := rounds + 1;
      }
    }

    lemma Missed(handed: seq<Byte>, before: seq<Byte>, collected: seq<Byte>, first: seq<Byte>, arrived: seq<Byte>,
                 transfers: seq<Transfer>, from: nat)
      requires handed + before == first && handed + collected + [] == arrived
      requires arrived == first + Brought(Content, transfers, from)
      ensures collected == before + Brought(Content, transfers, from)
    {
      assert collected == arrived[|handed|..] && before == first[|handed|..];
    }

    /** One turn of that loop, in a read that found `first` transfers and the next tag `tag`, and held `ahead`
        before the `rounds` it has made. */
    method NextTurn(options: ReadOptions, count: nat, before: seq<Byte>, ghost first: seq<Transfer>, ghost start: seq<Byte>,
                    ghost tag: Byte, ghost ahead: seq<Byte>, ghost rounds: nat)
      returns (collected: seq<Byte>, found: bool, endOfMessage: bool, status: Status, cutOff: Option<Cut>)
      requires Reading(before) && |before| < count && NoTermChar(options, before) && readAhead == [] && validInterface
      requires Progress(first, start, tag, options, count, ahead, rounds, transfers, arrived, nextTag)
      requires handed + ahead == start && GoesOn(transfers, |first|)
      modifies this`readAhead, this`readAheadEndsMessage, this`nextTag, this`transfers, this`arrived
      ensures Reading(collected) && Received(Content, first, start, transfers, arrived)
      ensures InTurn(transfers, |first|, tag, options, count, ahead)
      ensures cutOff == CutOffBy(transfers, |first|)
      ensures if status.Failed() then
                LastFailed(transfers, |first|, status) || (status == ErrorInvSize && count > Protocol.MAXIMUM_PAYLOAD)
              else
                && Progress(first, start, tag, options, count, ahead, rounds + 1, transfers, arrived, nextTag) && cutOff.None?
                && (|before| < |collected| || endOfMessage)
                && (endOfMessage || found || |collected| == count || GoesOn(transfers, |first|))
                && (!found && |collected| < count ==> readAhead == [])
      ensures cutOff.Some? ==> status.Interrupted()
      ensures |before| <= |collected| <= count && EndsAsSaid(options, collected, found)
    {
      ghost var asked, reached, next := transfers, arrived, nextTag;
      Missed(handed, ahead, before, start, arrived, transfers, |first|);
      collected, found, endOfMessage, status, cutOff := Turn(options, count, before);
      ProgressOn(first, start, tag, options, count, ahead, rounds, asked, reached, next, count - |before|, transfers, arrived);
    }

    /** The turn itself. */
    method Turn(options: ReadOptions, count: nat, before: seq<Byte>)
      returns (collected: seq<Byte>, found: bool, endOfMessage: bool, status: Status, cutOff: Option<Cut>)
      requires Reading(before) && |before| < count && NoTermChar(options, before) && readAhead == [] && validInterface
      modifies this`readAhead, this`readAheadEndsMessage, this`nextTag, this`transfers, this`arrived
      ensures Reading(collected) && Received(Content, old(transfers), old(arrived), transfers, arrived)
      ensures OneRound(old(transfers), transfers, old(nextTag), count - |before|, options) && nextTag == TagBehind(old(nextTag))
      ensures cutOff == CutOffBy(transfers, |old(transfers)|)
      ensures if status.Failed() then
                && collected == before && !found
                && (LastFailed(transfers, |old(transfers)|, status)
                    || (status == ErrorInvSize && count > Protocol.MAXIMUM_PAYLOAD && transfers == old(transfers)))
              else |transfers| == |old(transfers)| + 2 && cutOff.None?
      ensures cutOff.Some? ==> status.Interrupted()
      ensures before <= collected && |collected| <= count
      ensures !status.Failed() ==> |before| < |collected| || endOfMessage
      ensures EndsAsSaid(options, collected, found)
      ensures !status.Failed() && !found && |collected| < count ==> readAhead == []
      ensures !status.Failed() ==> Failure(transfers[|transfers| - 1]).None?
      ensures !status.Failed() && !found && |collected| < count && !endOfMessage ==> !Ends(transfers[|transfers| - 1])
    {
      collected, found, endOfMessage := before, false, false;
      var payload, messageEnds;
      payload, messageEnds, status, cutOff := Exchange(options, count - |before|, before);
      if !status.Failed() {
        collected, found, endOfMessage := Consume(options, count, before, payload, messageEnds);
      }
    }

    /** One round: a request, its response, and the checks on both. */
    method Exchange(options: ReadOptions, remaining: nat, ghost collected: seq<Byte>)
      returns (payload: seq<Byte>, messageEnds: bool, status: Status, cutOff: Option<Cut>)
      requires Reading(collected) && readAhead == [] && remaining > 0 && validInterface
      modifies this`nextTag, this`transfers, this`arrived
      ensures Received(Content, old(transfers), old(arrived), transfers, arrived)
      ensures Reading(collected + payload) && (status.Failed() ==> payload == [] && Reading(collected))
      ensures OneRound(old(transfers), transfers, old(nextTag), remaining, options) && nextTag == TagBehind(old(nextTag))
      ensures cutOff == CutOffBy(transfers, |old(transfers)|)
      ensures if status.Failed() then
                LastFailed(transfers, |old(transfers)|, status)
                || (status == ErrorInvSize && remaining > Protocol.MAXIMUM_PAYLOAD && transfers == old(transfers))
              else
                && |transfers| == |old(transfers)| + 2
                && Answer(transfers[|transfers| - 1]).Some?
                && Answer(transfers[|transfers| - 1]).value.payload == payload
                && Answer(transfers[|transfers| - 1]).value.endOfMessage == messageEnds
                && (payload != [] || messageEnds)
    {
      payload, messageEnds, cutOff := [], false, None;
      assert collected + [] == collected;
      ReceivedNothing(Content, transfers, arrived);
      var tag := NextTag();
      var request := Protocol.EncodeRequest(tag, remaining, options.termcharEnabled, options.termchar);
      if request.None? {
        status := ErrorInvSize;
        return;
      }
      Protocol.RequestRoundTrip(request.value, Protocol.Request(tag, remaining, options.termcharEnabled, options.termchar));
      var complete;
      status, complete := BulkOut(request.value);
      if status.Failed() || !complete {
        cutOff := if status.Interrupted() then Some(Cut(false, tag)) else None;
        status := if status.Failed() then status else ErrorIo;
        return;
      }
      ghost var asked := transfers;
      payload, messageEnds, status, cutOff := Respond(tag, remaining, collected);
      ReceivedThen(Content, old(transfers), old(arrived), asked, old(arrived), transfers, arrived);
    }

    /** The response to a request, and the checks on it. */
    method Respond(tag: Byte, remaining: nat, ghost collected: seq<Byte>)
      returns (payload: seq<Byte>, messageEnds: bool, status: Status, cutOff: Option<Cut>)
      requires Reading(collected) && readAhead == [] && validInterface
      modifies this`transfers, this`arrived
      ensures Received(Content, old(transfers), old(arrived), transfers, arrived)
      ensures Reading(collected + payload) && (status.Failed() ==> payload == [] && Reading(collected))
      ensures |transfers| == |old(transfers)| + 1 && old(transfers) <= transfers
      ensures var t := transfers[|old(transfers)|];
              && t.In? && t.tag == tag && t.remaining == remaining
              && cutOff == CutOffBy(transfers, |old(transfers)|)
              && if status.Failed() then Failure(t) == Some(status)
                 else
                   && Answer(t).Some? && Answer(t).value.payload == payload
                   && Answer(t).value.endOfMessage == messageEnds && (payload != [] || messageEnds)
    {
      payload, messageEnds, cutOff := [], false, None;
      assert collected + [] == collected;
      var response;
      status, response := BulkIn(tag, remaining);
      if status.Failed() {
        cutOff := if status.Interrupted() then Some(Cut(true, tag)) else None;
        return;
      }
      var maximumResponse := Protocol.HEADER_SIZE + remaining + maximumPacket;
      var message := Protocol.DecodeDevDepMsgIn(response, tag, remaining, maximumPacket - 1);
      if |response| == maximumResponse || message.None? || (message.value.payload == [] && !message.value.endOfMessage) {
        status := ErrorIo;
        return;
      }
      payload, messageEnds := message.value.payload, message.value.endOfMessage;
      Arrives(handed, collected, payload);
    }

    lemma Arrives(handed: seq<Byte>, collected: seq<Byte>, payload: seq<Byte>)
      ensures handed + collected + [] + payload == handed + (collected + payload) + []
    {
    }

    /** Why a read or a write of `count` bytes may end in `status`, other than by a cancel or a timeout. */
    ghost predicate Explained(status: Status, count: nat, wasUsable: bool, from: nat)
      reads this
    {
      || (count == 0 && status == ErrorInvParameter)
      || (!wasUsable && status == ErrorConnLost)
      || (!validInterface && status == ErrorNsupOper)
      || (count > Protocol.MAXIMUM_PAYLOAD && status == ErrorInvSize)
      || LastFailed(transfers, from, status)
    }

    /** The checks that reads and writes begin with. */
    method Admit(count: nat) returns (refusal: Option<Status>)
      ensures refusal.Some? ==>
        refusal.value.Failed() && (refusal.value.Interrupted() || Explained(refusal.value, count, usable, |transfers|))
      ensures count == 0 ==> refusal == Some(ErrorInvParameter)
      ensures count > 0 && !usable ==> refusal == Some(ErrorConnLost)
      ensures count > 0 && usable && !validInterface ==> refusal == Some(ErrorNsupOper)
      ensures refusal.Some? && count > 0 && usable && validInterface ==> refusal.value.Interrupted()
    {
      if count == 0 {
        return Some(ErrorInvParameter);
      }
      if !usable {
        return Some(ErrorConnLost);
      }
      if !validInterface {
        return Some(ErrorNsupOper);
      }
      var already := TryComplete(Success);
      return if already.Interrupted() then Some(already) else None;
    }

    /** A transfer that was cut off was recovered from, or else the session is unusable; without one there was
        no recovery. */
    ghost predicate Recovers(cutOff: Option<Cut>, before: seq<Attempt>)
      reads this
    {
      match cutOff
      case None => attempts == before
      case Some(cut) => Recovery(before, attempts, cut, usable)
    }

    /** `UsbTmcBackendSession::read`. */
    method Read(options: ReadOptions, count: nat) returns (status: Status, data: seq<Byte>)
      requires Valid()
      modifies this
      ensures Valid()
      ensures status.Failed() ==> data == [] && handed == old(handed)
      ensures status.Failed() ==> status.Interrupted() || Explained(status, count, old(usable), |old(transfers)|)
      ensures !status.Failed() ==> usable && handed == old(handed) + data
      ensures match status
              case SuccessTermChar => EndsAtTermChar(options, data) && |data| <= count
              case SuccessMaxCnt => |data| == count && NoTermChar(options, data)
              case Success => |data| < count && NoTermChar(options, data)
              case _ => status.Failed()
      // The transfers are rounds: a request under the next tag for the missing bytes, and its response; and
      // there are no more than needed.
      ensures InTurn(transfers, |old(transfers)|, old(nextTag), options, count, old(readAhead))
      ensures old(readAheadEndsMessage) ==> transfers == old(transfers)
      // What the transfers brought has arrived, unless a transfer was cut off and the device recovered.
      ensures !CutOff(transfers, |old(transfers)|) || !usable ==>
              Received(Content, old(transfers), old(arrived), transfers, arrived)
      // A failure outside a transfer keeps every byte, whatever the operation ended with.
      ensures status.Failed() && !CutOff(transfers, |old(transfers)|) && status != ErrorConnLost ==> usable == old(usable)
      // A transfer that was cut off leaves nothing behind or ends the session.
      ensures Recovers(CutOffBy(transfers, |old(transfers)|), old(attempts))
      ensures CutOff(transfers, |old(transfers)|) ==>
              old(transfers) <= transfers && status.Interrupted() && (usable ==> readAhead == [] && !readAheadEndsMessage)
      ensures old(!usable) ==> !usable && status.Failed() && transfers == old(transfers)
      ensures old(usable) && !usable ==>
              CutOff(transfers, |old(transfers)|) || (status == ErrorConnLost && LastFailed(transfers, |old(transfers)|, status))
    {
      data := [];
      ReceivedNothing(Content, transfers, arrived);
      var refusal := Admit(count);
      if refusal.Some? {
        return refusal.value, [];
      }
      var collected, cutOff;
      collected, status, cutOff := Collect(options, count);
      status := TryComplete(status);
      data := Finish(status, collected, cutOff);
    }

    /** Both loops of `read` and the status that they propose. */
    method Collect(options: ReadOptions, count: nat)
      returns (collected: seq<Byte>, status: Status, cutOff: Option<Cut>)
      requires Reading([]) && count > 0 && validInterface
      modifies this`readAhead, this`readAheadEndsMessage, this`nextTag, this`transfers, this`arrived
      ensures Reading(collected) && Received(Content, old(transfers), old(arrived), transfers, arrived)
      ensures InTurn(transfers, |old(transfers)|, old(nextTag), options, count, old(readAhead))
      ensures old(readAheadEndsMessage) ==> transfers == old(transfers)
      ensures cutOff == CutOffBy(transfers, |old(transfers)|)
      ensures cutOff.Some? ==> status.Interrupted()
      ensures match status
              case SuccessTermChar => EndsAtTermChar(options, collected) && |collected| <= count
              case SuccessMaxCnt => |collected| == count && NoTermChar(options, collected)
              case Success => |collected| < count && NoTermChar(options, collected)
              case _ =>
                && status.Failed()
                && (LastFailed(transfers, |old(transfers)|, status)
                    || (status == ErrorInvSize && count > Protocol.MAXIMUM_PAYLOAD))
    {
      ReceivedNothing(Content, transfers, arrived);
      var found, endOfMessage;
      collected, found, endOfMessage := TakeAhead(options, count);
      cutOff := None;
      status := Success;
      assert readAhead == [] ==> collected + readAhead == collected;
      if |collected| < count && !found && !endOfMessage {
        collected, found, endOfMessage, status, cutOff := Transfer(options, count, collected);
      }
      if !status.Failed() {
        status := if found then SuccessTermChar
                  else if |collected| == count then SuccessMaxCnt
                  else if !endOfMessage then ErrorIo
                  else Success;
      }
    }

    /** The end of `read`, once its status is decided. */
    method Finish(status: Status, collected: seq<Byte>, cutOff: Option<Cut>) returns (data: seq<Byte>)
      requires Reading(collected) && (cutOff.Some? ==> status.Interrupted())
      modifies this`readAhead, this`readAheadEndsMessage, this`usable, this`arrived, this`handed, this`attempts
      ensures Recovers(cutOff, old(attempts))
      ensures Valid()
      ensures if status.Failed() then data == [] && handed == old(handed)
              else data == collected && handed == old(handed) + data && arrived == old(arrived) && usable
      ensures status.Failed() && cutOff.None? && status != ErrorConnLost ==> usable && arrived == old(arrived)
      ensures cutOff.Some? ==> if usable then readAhead == [] && !readAheadEndsMessage else arrived == old(arrived)
      ensures status == ErrorConnLost ==> arrived == old(arrived)
      ensures !usable ==> status == ErrorConnLost || cutOff.Some?
    {
      data := [];
      if status.Interrupted() {
        if cutOff.Some? {
          var recovered := RecoverCancelledTransfer(cutOff.value.bulkIn, cutOff.value.tag);
        } else {
          RestoreReadAhead(collected);
        }
        return;
      }
      if status == ErrorConnLost {
        MarkUnusable();
        return;
      }
      if status.Failed() {
        RestoreReadAhead(collected);
        return;
      }
      handed := handed + collected;
      data := collected;
    }

    /** `UsbTmcBackendSession::write`: one frame, sent whole or reported as failed. */
    method Write(payload: seq<Byte>, sendEnd: bool) returns (status: Status, count: nat)
      requires Valid()
      modifies this
      ensures Valid() && handed == old(handed)
      ensures if status.Failed() then count == 0 else count == |payload| && usable && readAhead == old(readAhead)
      ensures status.Failed() ==> status.Interrupted() || Explained(status, |payload|, old(usable), |old(transfers)|)
      ensures transfers == old(transfers) || Posted(old(transfers), transfers, old(nextTag), payload, sendEnd)
      ensures !status.Failed() ==>
        Posted(old(transfers), transfers, old(nextTag), payload, sendEnd) && Failure(transfers[|old(transfers)|]).None?
      ensures readAhead == old(readAhead) || (readAhead == [] && CutOff(transfers, |old(transfers)|))
      ensures Recovers(CutOffBy(transfers, |old(transfers)|), old(attempts))
      ensures old(usable) && !usable ==>
              CutOff(transfers, |old(transfers)|) || LastFailed(transfers, |old(transfers)|, ErrorConnLost)
      ensures old(!usable) ==> !usable && status.Failed() && transfers == old(transfers)
    {
      count := 0;
      var refusal := Admit(|payload|);
      if refusal.Some? {
        return refusal.value, 0;
      }
      var tag := NextTag();
      var frame := Protocol.EncodeDevDepMsgOut(tag, payload, sendEnd);
      if frame.None? {
        return ErrorInvSize, 0;
      }
      Protocol.FrameLayout(Protocol.DEV_DEP_MSG_OUT, tag, payload, if sendEnd then 1 else 0, 0);
      status := Post(frame.value, tag);
      if !status.Failed() {
        count := |payload|;
      }
    }

    /** The rest of `write`: one frame goes out, and the session recovers if it was cut off. */
    method Post(frame: seq<Byte>, tag: Byte) returns (status: Status)
      requires Valid() && usable && |frame| > 1 && frame[1] == tag
      modifies this`readAhead, this`readAheadEndsMessage, this`usable, this`arrived, this`transfers, this`attempts
      ensures Valid() && Recovers(CutOffBy(transfers, |old(transfers)|), old(attempts))
      ensures |transfers| == |old(transfers)| + 1 && old(transfers) <= transfers
      ensures transfers[|old(transfers)|].Out? && transfers[|old(transfers)|].frame == frame
      ensures if status.Failed() then status.Interrupted() || LastFailed(transfers, |old(transfers)|, status)
              else usable && readAhead == old(readAhead) && Failure(transfers[|old(transfers)|]).None?
      ensures readAhead == old(readAhead) || (readAhead == [] && CutOff(transfers, |old(transfers)|))
      ensures !usable ==> CutOff(transfers, |old(transfers)|) || LastFailed(transfers, |old(transfers)|, ErrorConnLost)
    {
      var complete;
      status, complete := BulkOut(frame);
      if !status.Failed() && !complete {
        status := ErrorIo;
      }
      if status.Interrupted() {
        status := TryComplete(status);
        var recovered := RecoverCancelledTransfer(false, tag);
        return;
      }
      if status == ErrorConnLost {
        MarkUnusable();
      }
      status := TryComplete(status);
    }

    /** A discarding `flush`, or a `clear` that the device completed. */
    method Discard()
      requires Valid()
      modifies this
      ensures Valid() && readAhead == [] && handed == old(handed) && usable == old(usable)
    {
      readAhead, readAheadEndsMessage := [], false;
      arrived := handed;
    }
  }
}
