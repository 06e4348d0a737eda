/** The HiSLIP session's synchronous channel: writes in numbered messages, reads with read-ahead, and
    the recovery that clears both sides. The peer's answers are the environment's. */
module HiSlipSession {
  import opened ChunkedWrite
  import opened History
  import opened Visa

  const FIRST_ID := 0xFFFF_FF00
  const ANY_ID := 0xFFFF_FFFF

  /** The number of the `k`th message since the connection was last cleared; the one before the first
      stands for no message. */
  function MessageId(k: int): (id: nat)
    ensures id < 0x1_0000_0000
  {
    (FIRST_ID / 2 + k) % 0x8000_0000 * 2
  }

  lemma NextRemainder(x: int)
    ensures (x + 1) % 0x8000_0000 == if x % 0x8000_0000 == 0x7FFF_FFFF then 0 else x % 0x8000_0000 + 1
  {
    var q, r := x / 0x8000_0000, x % 0x8000_0000;
    assert x + 1 == if r == 0x7FFF_FFFF then (q + 1) * 0x8000_0000 else q * 0x8000_0000 + (r + 1);
  }

  /** `next_message_id_ += 2u` on 32 bits is the number of the next message, starting from 0xFFFFFF00;
      no number is the wildcard. */
  lemma NextMessageId(k: int)
    ensures MessageId(0) == FIRST_ID && MessageId(-1) == 0xFFFF_FEFE
    ensures MessageId(k + 1) == (MessageId(k) + 2) % 0x1_0000_0000
    ensures MessageId(k) % 2 == 0 && MessageId(k) != ANY_ID
  {
    NextRemainder(FIRST_ID / 2 + k);
  }

  /** Numbers come round only after two thousand million messages. */
  lemma MessageIdsDiffer(j: int, k: int)
    requires j < k < j + 0x8000_0000
    ensures MessageId(j) != MessageId(k)
  {
    var m, n := FIRST_ID / 2 + j, FIRST_ID / 2 + k;
    assert m == m / 0x8000_0000 * 0x8000_0000 + m % 0x8000_0000;
    assert n == n / 0x8000_0000 * 0x8000_0000 + n % 0x8000_0000;
  }

  /** A message on its way to the peer; a trigger carries nothing. */
  datatype Message = Message(id: nat, chunk: Chunk)

  function Chunks(messages: seq<Message>): (chunks: seq<Chunk>)
    ensures |chunks| == |messages|
    ensures forall k :: 0 <= k < |messages| ==> chunks[k] == messages[k].chunk
  {
    seq(|messages|, k requires 0 <= k < |messages| => messages[k].chunk)
  }

  lemma ChunksMore(messages: seq<Message>, message: Message)
    ensures Chunks(messages + [message]) == Chunks(messages) + [message.chunk]
  {
  }

  datatype FrameKind = DataFrame | DataEndFrame | InterruptedFrame | OtherFrame

  /** What an exchange of the read loop gives: an error, after which the channel may be closed, or a
      frame. */
  datatype Reply = Fails(status: Status, closes: bool) | Frame(kind: FrameKind, id: nat, payload: seq<Byte>)

  /** A reply, and the number of the last message at the time. */
  datatype Exchange = Exchange(lastSent: nat, reply: Reply)

  /** Data that answers the last message, or any. */
  predicate Fits(e: Exchange) {
    && e.reply.Frame?
    && (e.reply.kind == DataFrame || e.reply.kind == DataEndFrame)
    && (e.reply.id == ANY_ID || e.reply.id == e.lastSent)
  }

  function Content(e: Exchange): seq<Byte> {
    if Fits(e) then e.reply.payload else []
  }

  /** What an exchange ends its read with, if it does so without data. */
  function Failure(e: Exchange): Option<Status> {
    if Fits(e) then None
    else if e.reply.Fails? && e.reply.status.Failed() then Some(e.reply.status)
    else Some(ErrorIo)
  }

  /** The last exchange, one behind the first `from`, ended in `failure`. */
  predicate LastFailed(exchanges: seq<Exchange>, from: nat, failure: Status) {
    from < |exchanges| && Failure(exchanges[|exchanges| - 1]) == Some(failure)
  }

  /** It was cancelled or timed out. */
  predicate CutOff(exchanges: seq<Exchange>, from: nat) {
    LastFailed(exchanges, from, ErrorAbort) || LastFailed(exchanges, from, ErrorTmo)
  }

  lemma FailedOnce(exchanges: seq<Exchange>, from: nat, failure: Status)
    requires LastFailed(exchanges, from, failure)
    ensures CutOff(exchanges, from) <==> failure.Interrupted()
  {
  }

  /** It brought a frame that is out of place. */
  predicate LastMisplaced(exchanges: seq<Exchange>, from: nat) {
    from < |exchanges| && var e := exchanges[|exchanges| - 1]; e.reply.Frame? && !Fits(e)
  }

  /** It ended the connection. */
  predicate LastCloses(exchanges: seq<Exchange>, from: nat) {
    from < |exchanges| && var e := exchanges[|exchanges| - 1]; e.reply.Fails? && e.reply.closes
  }

  /** It brought the end of a message. */
  predicate LastEnded(exchanges: seq<Exchange>, from: nat) {
    from < |exchanges| && var e := exchanges[|exchanges| - 1]; Fits(e) && e.reply.kind == DataEndFrame
  }

  /** No exchange of the same read follows: it brought no data that fits, or the end of a message. */
  predicate Ends(e: Exchange) {
    !Fits(e) || e.reply.kind == DataEndFrame
  }

  /** Every exchange behind the first `from` was needed on top of the bytes `ahead`. */
  ghost predicate InTurn(exchanges: seq<Exchange>, from: nat, options: ReadOptions, count: nat, ahead: seq<Byte>) {
    AllNeeded(Content, Ends, EnoughFor(options, count), ahead, exchanges, from)
  }

  lemma InTurnMore(exchanges: seq<Exchange>, exchanges': seq<Exchange>, from: nat, options: ReadOptions, count: nat,
                   ahead: seq<Byte>)
    requires from <= |exchanges| && InTurn(exchanges, from, options, count, ahead)
    requires Needy(Content, Ends, EnoughFor(options, count), ahead, exchanges, from)
    requires exchanges <= exchanges' && |exchanges'| == |exchanges| + 1
    ensures InTurn(exchanges', from, options, count, ahead)
  {
    assert exchanges' == exchanges + [exchanges'[|exchanges|]];
    NeededMore(Content, Ends, EnoughFor(options, count), ahead, exchanges, exchanges'[|exchanges|], from);
  }

  ghost predicate GoesOn(exchanges: seq<Exchange>, from: nat) {
    |exchanges| > from ==> !Ends(exchanges[|exchanges| - 1])
  }

  ghost predicate Progress(first: seq<Exchange>, before: seq<Byte>, options: ReadOptions, count: nat, ahead: seq<Byte>,
                           exchanges: seq<Exchange>, arrived: seq<Byte>) {
    Received(Content, first, before, exchanges, arrived) && InTurn(exchanges, |first|, options, count, ahead)
  }

  lemma ProgressOn(first: seq<Exchange>, before: seq<Byte>, options: ReadOptions, count: nat, ahead: seq<Byte>,
                   exchanges: seq<Exchange>, arrived: seq<Byte>, exchanges': seq<Exchange>, arrived': seq<Byte>)
    requires Progress(first, before, options, count, ahead, exchanges, arrived)
    requires Needy(Content, Ends, EnoughFor(options, count), ahead, exchanges, |first|)
    requires exchanges <= exchanges' && |exchanges'| == |exchanges| + 1
    ensures InTurn(exchanges', |first|, options, count, ahead)
    ensures Received(Content, exchanges, arrived, exchanges', arrived') ==>
            Progress(first, before, options, count, ahead, exchanges', arrived')
  {
    InTurnMore(exchanges, exchanges', |first|, options, count, ahead);
    if Received(Content, exchanges, arrived, exchanges', arrived') {
      ReceivedThen(Content, first, before, exchanges, arrived, exchanges', arrived');
    }
  }

  datatype Ending = Finished | OutOfPlace | Refused(status: Status)

  class Session {
    const maximumPayload: nat

    var nextMessageId: nat
    var lastSentMessageId: nat
    var readAhead: seq<Byte>
    var readAheadEnd: bool
    var closed: bool

    /** The messages sent since the last clear. */
    ghost var wire: seq<Message>
    /** How every message that was sent went out; only `Send` adds to it. */
    ghost var sends: seq<Status>
    /** Every exchange of a read; only `Ask` adds to it. */
    ghost var exchanges: seq<Exchange>
    /** Every byte received in an accepted frame and not thrown away since. */
    ghost var arrived: seq<Byte>
    /** The bytes successful reads handed to their callers. */
    ghost var handed: seq<Byte>

    constructor (maximumPayload: nat)
      requires maximumPayload > 0
      ensures Valid() && this.maximumPayload == maximumPayload && wire == [] && arrived == []
    {
      this.maximumPayload := maximumPayload;
      nextMessageId, lastSentMessageId := 0xFFFF_FF00, 0xFFFF_FEFE;
      readAhead, readAheadEnd, closed := [], false, false;
      wire, sends, exchanges, arrived, handed := [], [], [], [], [];
    }

    /** Messages are numbered in order and replies are matched with the last one. */
    ghost predicate Numbered()
      reads this
    {
      && maximumPayload > 0
      && nextMessageId == MessageId(|wire|) && lastSentMessageId == MessageId(|wire| - 1)
      && forall k :: 0 <= k < |wire| ==> wire[k].id == MessageId(k)
    }

    ghost predicate Valid()
      reads this
    {
      Numbered() && handed + readAhead == arrived
    }

    /** In the middle of a read the collected bytes are with the reader. */
    ghost predicate Reading(data: seq<Byte>)
      reads this
    {
      Numbered() && handed + (data + readAhead) == arrived
    }

    /** The number of the next message is taken. */
    method TakeId() returns (id: nat)
      requires maximumPayload > 0 && nextMessageId == MessageId(|wire|)
      modifies this`nextMessageId, this`lastSentMessageId
      ensures id == MessageId(|wire|) && lastSentMessageId == id && nextMessageId == MessageId(|wire| + 1)
    {
      NextMessageId(|wire|);
      id := nextMessageId;
      nextMessageId := (nextMessageId + 2) % 0x1_0000_0000;
      lastSentMessageId := id;
    }

    /** A message goes out under the next number. */
    method Send(chunk: Chunk) returns (status: Status)
      requires Numbered()
      modifies this`nextMessageId, this`lastSentMessageId, this`wire, this`sends
      ensures Numbered() && wire == old(wire) + [Message(MessageId(|old(wire)|), chunk)]
      ensures sends == old(sends) + [status]
    {
      var id := TakeId();
      wire := wire + [Message(id, chunk)];
      status := *;
      sends := sends + [status];
    }

    /** The last message, one behind the first `from`, went out like this. */
    ghost predicate LastSent(status: Status, from: nat)
      reads this`sends
    {
      from < |sends| && sends[|sends| - 1] == status
    }

    /** A call that sent messages may end in `status`: by a cancel or a timeout, as the last message did, or
        with the connection lost because that one was cut off. */
    ghost predicate SendExplains(status: Status, from: nat)
      reads this`sends
    {
      || status.Interrupted() || LastSent(status, from)
      || (status == ErrorConnLost && (LastSent(ErrorAbort, from) || LastSent(ErrorTmo, from)))
    }

    /** `reset_after_clear`. */
    method ResetAfterClear()
      requires maximumPayload > 0
      modifies this`nextMessageId, this`lastSentMessageId, this`readAhead, this`readAheadEnd, this`wire, this`arrived
      ensures Valid() && wire == [] && readAhead == []
    {
      nextMessageId, lastSentMessageId := 0xFFFF_FF00, 0xFFFF_FEFE;
      readAhead, readAheadEnd := [], false;
      wire, arrived := [], handed;
    }

    /** `complete_cancel_recovery`: the peer acknowledges the clear in time, or not. */
    method CompleteCancelRecovery() returns (recovered: bool)
      requires maximumPayload > 0
      modifies this`nextMessageId, this`lastSentMessageId, this`readAhead, this`readAheadEnd, this`wire, this`arrived
      ensures if recovered then Valid() && wire == [] && readAhead == []
              else nextMessageId == old(nextMessageId) && lastSentMessageId == old(lastSentMessageId)
                   && readAhead == old(readAhead) && wire == old(wire) && arrived == old(arrived)
    {
      recovered := *;
      if recovered {
        ResetAfterClear();
      }
    }

    /** A call that was cut off clears the connection, or else counts it as lost. */
    method Recover(reached: Status) returns (status: Status)
      requires Valid()
      modifies this`nextMessageId, this`lastSentMessageId, this`readAhead, this`readAheadEnd, this`wire, this`arrived
      ensures Valid()
      ensures status == reached || (reached.Interrupted() && status == ErrorConnLost)
      ensures if status.Interrupted() then wire == [] && readAhead == [] else wire == old(wire) && arrived == old(arrived)
    {
      status := reached;
      if status.Interrupted() {
        var recovered := CompleteCancelRecovery();
        if !recovered {
          status := ErrorConnLost;
        }
      }
    }

    method DiscardReadAhead()
      requires Numbered()
      modifies this`readAhead, this`readAheadEnd, this`arrived
      ensures Valid() && readAhead == [] && !readAheadEnd
    {
      readAhead, readAheadEnd := [], false;
      arrived := handed;
    }

    /** `write`. On success the buffer has gone out, cut at the negotiated maximum, with the end mark
        only at its end; a failed write has sent a part of that, or has cleared the connection. */
    method Write(buffer: seq<Byte>, sendEnd: bool) returns (status: Status, count: nat)
      requires Valid()
      modifies this`nextMessageId, this`lastSentMessageId, this`readAhead, this`readAheadEnd, this`wire, this`sends, this`arrived
      ensures Valid()
      ensures if status.Failed() then count == 0 else count == |buffer| && readAhead == [] && !readAheadEnd
      ensures status.Failed() ==> SendExplains(status, |old(sends)|)
      ensures !status.Failed() ==>
              old(wire) <= wire && Sent(Chunks(old(wire)), Chunks(wire), buffer, |buffer|, maximumPayload, sendEnd)
      ensures (wire == [] && status.Interrupted()) || SentPart(Chunks(old(wire)), Chunks(wire), buffer, maximumPayload, sendEnd)
    {
      count := 0;
      SentNothing(Chunks(wire), buffer, maximumPayload, sendEnd);
      status := TryComplete(Success);
      if status.Interrupted() {
        return;
      }
      DiscardReadAhead();
      status := SendOrRecover(buffer, sendEnd);
      if status.Failed() {
        return;
      }
      status := TryComplete(Success);
      if status.Failed() {
        return;
      }
      count := |buffer|;
    }

    /** All messages go out, or the connection recovers from the one that was cut off. */
    method SendOrRecover(buffer: seq<Byte>, sendEnd: bool) returns (status: Status)
      requires Valid() && readAhead == [] && !readAheadEnd
      modifies this`nextMessageId, this`lastSentMessageId, this`readAhead, this`readAheadEnd, this`wire, this`sends, this`arrived
      ensures Valid() && (!status.Failed() ==> readAhead == [] && !readAheadEnd)
      ensures status.Failed() ==> SendExplains(status, |old(sends)|)
      ensures !status.Failed() ==>
              old(wire) <= wire && Sent(Chunks(old(wire)), Chunks(wire), buffer, |buffer|, maximumPayload, sendEnd)
      ensures (wire == [] && status.Interrupted()) || SentPart(Chunks(old(wire)), Chunks(wire), buffer, maximumPayload, sendEnd)
    {
      status := SendAll(buffer, sendEnd);
      if status.Failed() {
        status := Recover(status);
      }
    }

    /** The loop of `write`. */
    method SendAll(buffer: seq<Byte>, sendEnd: bool) returns (status: Status)
      requires Numbered()
      modifies this`nextMessageId, this`lastSentMessageId, this`wire, this`sends
      ensures Numbered() && old(wire) <= wire && old(sends) <= sends
      ensures status.Failed() ==> LastSent(status, |old(sends)|)
      ensures SentPart(Chunks(old(wire)), Chunks(wire), buffer, maximumPayload, sendEnd)
      ensures !status.Failed() ==> Sent(Chunks(old(wire)), Chunks(wire), buffer, |buffer|, maximumPayload, sendEnd)
    {
      ghost var before := Chunks(wire);
      var offset := 0;
      status := Success;
      SentNothing(before, buffer, maximumPayload, sendEnd);
      while offset < |buffer|
        invariant Numbered() && old(wire) <= wire && old(sends) <= sends && offset <= |buffer| && !status.Failed()
        invariant Sent(before, Chunks(wire), buffer, offset, maximumPayload, sendEnd)
      {
        var amount;
        status, amount := SendChunk(buffer, offset, sendEnd, before);
        if status.Failed() {
          return;
        }
        offset := offset + amount;
      }
    }

    method SendChunk(buffer: seq<Byte>, offset: nat, sendEnd: bool, ghost before: seq<Chunk>)
      returns (status: Status, amount: nat)
      requires Numbered() && offset < |buffer| && Sent(before, Chunks(wire), buffer, offset, maximumPayload, sendEnd)
      modifies this`nextMessageId, this`lastSentMessageId, this`wire, this`sends
      ensures sends == old(sends) + [status]
      ensures Numbered() && old(wire) <= wire && amount > 0 && offset + amount <= |buffer|
      ensures Sent(before, Chunks(wire), buffer, offset + amount, maximumPayload, sendEnd)
    {
      amount := if |buffer| - offset < maximumPayload then |buffer| - offset else maximumPayload;
      var last := offset + amount == |buffer|;
      var end := last && sendEnd;
      ghost var chunk := NextChunk(buffer, offset, maximumPayload, sendEnd);
      SentMore(before, Chunks(wire), buffer, offset, maximumPayload, sendEnd);
      ChunksMore(wire, Message(MessageId(|wire|), chunk));
      status := Send(Chunk(buffer[offset..offset + amount], end));
    }

    /** `assert_trigger` takes a number too. */
    method Trigger() returns (status: Status)
      requires Valid()
      modifies this
      ensures Valid() && handed == old(handed)
      ensures (wire == [] && status.Interrupted()) || old(wire) <= wire
      ensures status.Failed() ==> SendExplains(status, |old(sends)|)
    {
      status := TryComplete(Success);
      if status.Interrupted() {
        return;
      }
      status := Send(Chunk([], false));
      status := Recover(status);
    }

    /** The first loop of `read`: bytes left over from earlier frames, and their end mark. */
    method TakeAhead(options: ReadOptions, count: nat) returns (data: seq<Byte>, termchar: bool, end: bool)
      requires Reading([])
      modifies this`readAhead, this`readAheadEnd
      ensures Reading(data) && |data| <= count && data + readAhead == old(readAhead)
      ensures EndsAsSaid(options, data, termchar)
      ensures !termchar && |data| < count ==> readAhead == []
      ensures end <==> old(readAheadEnd) && readAhead == []
      ensures readAheadEnd <==> old(readAheadEnd) && !end
    {
      data, termchar, end := [], false, false;
      while readAhead != [] && |data| < count && !termchar
        invariant Reading(data) && |data| <= count && readAheadEnd == old(readAheadEnd)
        invariant data + readAhead == old(readAhead)
        invariant EndsAsSaid(options, data, termchar)
        decreases |readAhead|
      {
        var byte := readAhead[0];
        assert data + readAhead == (data + [byte]) + readAhead[1..];
        assert (data + [byte])[..|data|] == data;
        readAhead := readAhead[1..];
        data := data + [byte];
        termchar := IsTermChar(options, byte);
      }
      if readAhead == [] && readAheadEnd {
        end := true;
        readAheadEnd := false;
      }
    }

    /** The loop over the payload of a frame: to the reader up to the count or a termination character,
        and then to the read-ahead. */
    method Distribute(options: ReadOptions, count: nat, before: seq<Byte>, payload: seq<Byte>)
      returns (data: seq<Byte>, termchar: bool)
      requires readAhead == [] && |before| < count && NoTermChar(options, before)
      modifies this`readAhead
      ensures data + readAhead == before + payload
      ensures before <= data && |data| <= count
      ensures EndsAsSaid(options, data, termchar)
      ensures readAhead != [] ==> termchar || |data| == count
    {
      data, termchar := before, false;
      var index := 0;
      while index < |payload|
        invariant 0 <= index <= |payload|
        invariant data + readAhead == before + payload[..index]
        invariant before <= data && |data| <= count
        invariant EndsAsSaid(options, data, termchar)
        invariant readAhead != [] ==> termchar || |data| == count
      {
        var byte := payload[index];
        assert payload[..index + 1] == payload[..index] + [byte];
        index := index + 1;
        if |data| < count && !termchar {
          assert readAhead == [] && data + readAhead == data;
          assert (data + [byte])[..|data|] == data;
          data := data + [byte];
          termchar := IsTermChar(options, byte);
          assert data + readAhead == before + (payload[..index - 1] + [byte]);
        } else {
          assert data + (readAhead + [byte]) == (data + readAhead) + [byte];
          readAhead := readAhead + [byte];
        }
      }
      assert payload[..index] == payload;
    }

    method Close()
      modifies this`closed
      ensures closed
    {
      closed := true;
    }

    /** The bytes collected so far are dropped, as the session is closed on a frame out of place. */
    method GiveUp()
      requires Numbered()
      modifies this`closed, this`arrived
      ensures closed && Valid()
    {
      arrived := handed + readAhead;
      Close();
    }

    method RestoreReadAhead(data: seq<Byte>)
      requires Reading(data)
      modifies this`readAhead
      ensures Valid()
    {
      ghost var before := readAhead;
      var index := |data|;
      while index > 0
        invariant 0 <= index <= |data| && readAhead == data[index..] + before
      {
        index := index - 1;
        readAhead := [data[index]] + readAhead;
      }
      assert data[0..] == data;
    }

    /** One exchange of the read loop; when the time is up it brings nothing. */
    method Ask(late: bool) returns (reply: Reply)
      modifies this`exchanges, this`arrived
      ensures late ==> reply == Fails(ErrorTmo, false)
      ensures exchanges == old(exchanges) + [Exchange(lastSentMessageId, reply)]
      ensures arrived == old(arrived) + Content(Exchange(lastSentMessageId, reply))
      ensures Received(Content, old(exchanges), old(arrived), exchanges, arrived)
    {
      reply := *;
      if late {
        reply := Fails(ErrorTmo, false);
      }
      ghost var e := Exchange(lastSentMessageId, reply);
      ReceivedNothing(Content, exchanges, arrived);
      ReceivedMore(Content, exchanges, arrived, exchanges, arrived, e);
      exchanges, arrived := exchanges + [e], arrived + Content(e);
    }

    /** One frame of the read loop. A frame that answers another message than the last, or is no data
        at all, closes the session. */
    method Accept(options: ReadOptions, count: nat, before: seq<Byte>, kind: FrameKind, id: nat, payload: seq<Byte>)
      returns (accepted: bool, data: seq<Byte>, termchar: bool, end: bool)
      requires Reading(before + Content(Exchange(lastSentMessageId, Frame(kind, id, payload))))
      requires readAhead == [] && |before| < count && NoTermChar(options, before)
      modifies this`readAhead, this`readAheadEnd, this`arrived, this`closed
      ensures accepted <==> Fits(Exchange(lastSentMessageId, Frame(kind, id, payload)))
      ensures if accepted then Reading(data) && arrived == old(arrived) && closed == old(closed)
              else closed && Valid() && readAhead == []
      ensures accepted ==> before <= data && |data| <= count
      ensures accepted ==> EndsAsSaid(options, data, termchar)
      ensures accepted && !termchar && |data| < count ==> readAhead == []
      ensures accepted && !termchar && |data| < count ==> (end <==> kind == DataEndFrame)
      ensures accepted && end ==> readAhead == [] && kind == DataEndFrame
      ensures accepted && kind == DataEndFrame ==> end || readAheadEnd
    {
      data, termchar, end := before, false, false;
      if kind == InterruptedFrame || (kind != DataFrame && kind != DataEndFrame) {
        GiveUp();
        return false, data, termchar, end;
      }
      if id != ANY_ID && id != lastSentMessageId {
        readAhead, readAheadEnd := [], false;
        GiveUp();
        return false, data, termchar, end;
      }
      data, termchar := Distribute(options, count, before, payload);
      if kind == DataEndFrame {
        if readAhead == [] {
          end := true;
        } else {
          readAheadEnd := true;
        }
      }
      accepted := true;
    }

    lemma Arrives(handed: seq<Byte>, before: seq<Byte>, bytes: seq<Byte>)
      ensures handed + (before + []) + bytes == handed + ((before + bytes) + [])
      ensures bytes == [] ==> handed + (before + []) + bytes == handed + (before + [])
    {
    }

    /** One round of the loop of `read`. */
    method Round(options: ReadOptions, count: nat, before: seq<Byte>, late: bool)
      returns (data: seq<Byte>, termchar: bool, end: bool, ending: Ending)
      requires Reading(before) && |before| < count && NoTermChar(options, before) && readAhead == []
      modifies this`readAhead, this`readAheadEnd, this`exchanges, this`arrived, this`closed
      ensures |exchanges| == |old(exchanges)| + 1 && old(exchanges) <= exchanges
      ensures ending.Finished? && !end && !termchar && |data| < count ==> !Ends(exchanges[|old(exchanges)|])
      ensures late ==> ending.Refused?
      ensures LastMisplaced(exchanges, |old(exchanges)|) <==> ending.OutOfPlace?
      ensures if ending.OutOfPlace? then closed && Valid() && readAhead == []
              else Reading(data) && Received(Content, old(exchanges), old(arrived), exchanges, arrived)
      ensures ending.Refused? ==> ending.status.Failed() && LastFailed(exchanges, |old(exchanges)|, ending.status)
      ensures closed ==> old(closed) || ending.OutOfPlace? || LastCloses(exchanges, |old(exchanges)|)
      ensures ending.Finished? ==> |data| <= count && exists e :: Failure(e).None? && exchanges == old(exchanges) + [e]
      ensures ending.Finished? ==> EndsAsSaid(options, data, termchar)
      ensures ending.Finished? && !termchar && |data| < count ==> readAhead == []
      ensures ending.Finished? && end ==> readAhead == [] && LastEnded(exchanges, |old(exchanges)|)
    {
      data, termchar, end := before, false, false;
      var reply := Ask(late);
      ghost var e := Exchange(lastSentMessageId, reply);
      assert exchanges[|exchanges| - 1] == e;
      Arrives(handed, before, Content(e));
      match reply {
        case Fails(status, closes) =>
          if closes {
            Close();
          }
          ending := Refused(if status.Failed() then status else ErrorIo);
        case Frame(kind, id, payload) =>
          var accepted;
          accepted, data, termchar, end := Accept(options, count, before, kind, id, payload);
          ending := if accepted then Finished else OutOfPlace;
      }
    }

    /** One round of the loop, in a read that found the exchanges `first` and held `ahead` before them. */
    method NextRound(options: ReadOptions, count: nat, before: seq<Byte>, late: bool, ghost first: seq<Exchange>,
                     ghost start: seq<Byte>, ghost ahead: seq<Byte>)
      returns (data: seq<Byte>, termchar: bool, end: bool, ending: Ending)
      requires Reading(before) && |before| < count && NoTermChar(options, before) && readAhead == []
      requires Progress(first, start, options, count, ahead, exchanges, arrived)
      requires handed + ahead == start && GoesOn(exchanges, |first|)
      modifies this`readAhead, this`readAheadEnd, this`exchanges, this`arrived, this`closed
      ensures InTurn(exchanges, |first|, options, count, ahead)
      ensures late ==> ending.Refused?
      ensures LastMisplaced(exchanges, |first|) <==> ending.OutOfPlace?
      ensures if ending.OutOfPlace? then closed && Valid() && readAhead == []
              else Reading(data) && Progress(first, start, options, count, ahead, exchanges, arrived)
      ensures if ending.Refused? then ending.status.Failed() && LastFailed(exchanges, |first|, ending.status)
              else !CutOff(exchanges, |first|)
      ensures closed ==> old(closed) || ending.OutOfPlace? || (ending.Refused? && LastCloses(exchanges, |first|))
      ensures ending.Finished? ==> |data| <= count && EndsAsSaid(options, data, termchar)
      ensures ending.Finished? && !termchar && |data| < count ==> readAhead == []
      ensures ending.Finished? && end ==> readAhead == [] && LastEnded(exchanges, |first|)
      ensures ending.Finished? ==> end || termchar || |data| == count || GoesOn(exchanges, |first|)
    {
      ghost var asked, reached := exchanges, arrived;
      Collected(handed, ahead, before, start, arrived, exchanges, |first|);
      data, termchar, end, ending := Round(options, count, before, late);
      ProgressOn(first, start, options, count, ahead, asked, reached, exchanges, arrived);
    }

    lemma Collected(handed: seq<Byte>, before: seq<Byte>, data: seq<Byte>, first: seq<Byte>, arrived: seq<Byte>,
                    exchanges: seq<Exchange>, from: nat)
      requires handed + before == first && handed + (data + []) == arrived
      requires arrived == first + Brought(Content, exchanges, from)
      ensures data == before + Brought(Content, exchanges, from)
    {
      assert data == arrived[|handed|..] && before == first[|handed|..];
    }

    /** The loop of `read`. `patience` is how many answers the peer gives before the time is up. */
    method Transfer(options: ReadOptions, count: nat, before: seq<Byte>, patience: nat)
      returns (data: seq<Byte>, termchar: bool, end: bool, ending: Ending)
      requires Reading(before) && |before| < count && NoTermChar(options, before) && readAhead == []
      modifies this`readAhead, this`readAheadEnd, this`exchanges, this`arrived, this`closed
      ensures InTurn(exchanges, |old(exchanges)|, options, count, before)
      ensures LastMisplaced(exchanges, |old(exchanges)|) <==> ending.OutOfPlace?
      ensures if ending.OutOfPlace? then closed && Valid() && readAhead == []
              else Reading(data) && Received(Content, old(exchanges), old(arrived), exchanges, arrived)
      ensures if ending.Refused? then ending.status.Failed() && LastFailed(exchanges, |old(exchanges)|, ending.status)
              else !CutOff(exchanges, |old(exchanges)|)
      ensures closed ==> old(closed) || ending.OutOfPlace? || LastCloses(exchanges, |old(exchanges)|)
      ensures ending.Finished? ==> |data| <= count
      ensures ending.Finished? ==> EndsAsSaid(options, data, termchar)
      ensures ending.Finished? && !termchar && |data| < count ==> readAhead == [] && LastEnded(exchanges, |old(exchanges)|)
    {
      data, termchar, end := before, false, false;
      var answers := patience;
      assert before + [] == before;
      ReceivedNothing(Content, exchanges, arrived);
      while !end && !termchar && |data| < count
        invariant Reading(data) && |data| <= count && handed + before == old(arrived)
        invariant Progress(old(exchanges), old(arrived), options, count, before, exchanges, arrived)
        invariant !CutOff(exchanges, |old(exchanges)|) && !LastMisplaced(exchanges, |old(exchanges)|)
        invariant end || termchar || |data| == count || GoesOn(exchanges, |old(exchanges)|)
        invariant EndsAsSaid(options, data, termchar)
        invariant !termchar && |data| < count ==> readAhead == []
        invariant end ==> readAhead == [] && LastEnded(exchanges, |old(exchanges)|)
        invariant closed ==> old(closed)
        decreases answers
      {
        data, termchar, end, ending :=
          NextRound(options, count, data, answers == 0, old(exchanges), old(arrived), before);
        if !ending.Finished? {
          return;
        }
        answers := answers - 1;
      }
      ending := Finished;
    }

    /** `read`. Whatever arrived is handed over once and in order: a failed read keeps it, unless the
        connection was cleared or a frame was out of place. */
    method Read(options: ReadOptions, count: nat, patience: nat) returns (status: Status, data: seq<Byte>)
      requires Valid()
      modifies this
      ensures Valid()
      ensures status.Failed() ==> data == [] && handed == old(handed)
      ensures !status.Failed() ==> handed == old(handed) + data
      ensures match status
              case SuccessTermChar => EndsAtTermChar(options, data) && |data| <= count
              case SuccessMaxCnt => |data| == count && NoTermChar(options, data)
              case Success =>
                && |data| < count && NoTermChar(options, data) && readAhead == []
                && (old(readAheadEnd) || LastEnded(exchanges, |old(exchanges)|))
              case _ => status.Failed()
      // It asks the peer only while it needs more, and never for what is behind the end of a message.
      ensures InTurn(exchanges, |old(exchanges)|, options, count, old(readAhead))
      ensures old(readAheadEnd) ==> exchanges == old(exchanges)
      // An exchange that was cut off clears both sides, or else the connection counts as lost.
      ensures if CutOff(exchanges, |old(exchanges)|) then
                || (status == ErrorConnLost && wire == old(wire))
                || (status.Interrupted() && LastFailed(exchanges, |old(exchanges)|, status) && wire == [] && readAhead == [])
              else wire == old(wire)
      // A frame out of place closes the session and takes the bytes of this read with it.
      ensures LastMisplaced(exchanges, |old(exchanges)|) ==> closed && status == ErrorIo && readAhead == []
      ensures closed ==>
        old(closed) || LastMisplaced(exchanges, |old(exchanges)|) || LastCloses(exchanges, |old(exchanges)|)
      // In every other case what the frames brought is there, and nothing else.
      ensures !LastMisplaced(exchanges, |old(exchanges)|) && (CutOff(exchanges, |old(exchanges)|) ==> status == ErrorConnLost)
              ==> Received(Content, old(exchanges), old(arrived), exchanges, arrived)
      ensures status.Failed() ==>
        status.Interrupted() || CutOff(exchanges, |old(exchanges)|) || LastFailed(exchanges, |old(exchanges)|, status)
    {
      data := [];
      ReceivedNothing(Content, exchanges, arrived);
      status := TryComplete(Success);
      if status.Interrupted() {
        return;
      }
      var failed, collected, termchar := Collect(options, count, patience);
      if failed.Some? {
        status := failed.value;
        return;
      }
      status, data := Conclude(count, collected, termchar);
    }

    /** What `read` does before its result is decided: the read-ahead first, then the frames. */
    method Collect(options: ReadOptions, count: nat, patience: nat)
      returns (failed: Option<Status>, collected: seq<Byte>, termchar: bool)
      requires Valid()
      modifies this`nextMessageId, this`lastSentMessageId, this`readAhead, this`readAheadEnd, this`wire, this`exchanges,
               this`arrived, this`closed
      ensures InTurn(exchanges, |old(exchanges)|, options, count, old(readAhead))
      ensures old(readAheadEnd) ==> exchanges == old(exchanges)
      ensures failed.Some? ==> Valid() && failed.value.Failed()
      ensures failed.None? ==> Reading(collected) && |collected| <= count
      ensures failed.None? ==> EndsAsSaid(options, collected, termchar)
      ensures failed.None? && !termchar && |collected| < count ==>
        readAhead == [] && (old(readAheadEnd) || LastEnded(exchanges, |old(exchanges)|))
      ensures if CutOff(exchanges, |old(exchanges)|) then
                || (failed == Some(ErrorConnLost) && wire == old(wire))
                || (failed.Some? && failed.value.Interrupted() && LastFailed(exchanges, |old(exchanges)|, failed.value)
                    && wire == [] && readAhead == [])
              else wire == old(wire)
      ensures LastMisplaced(exchanges, |old(exchanges)|) ==> closed && failed == Some(ErrorIo) && readAhead == []
      ensures closed ==>
        old(closed) || LastMisplaced(exchanges, |old(exchanges)|) || LastCloses(exchanges, |old(exchanges)|)
      ensures !LastMisplaced(exchanges, |old(exchanges)|)
              && (CutOff(exchanges, |old(exchanges)|) ==> failed == Some(ErrorConnLost))
              ==> Received(Content, old(exchanges), old(arrived), exchanges, arrived)
      ensures failed.Some? ==>
        CutOff(exchanges, |old(exchanges)|) || LastFailed(exchanges, |old(exchanges)|, failed.value)
    {
      failed := None;
      var ending;
      collected, termchar, ending := Gather(options, count, patience);
      if ending.OutOfPlace? {
        failed := Some(ErrorIo);
      } else if ending.Refused? {
        FailedOnce(exchanges, |old(exchanges)|, ending.status);
        var status := Abandon(ending.status, collected);
        failed := Some(status);
      }
    }

    /** Both loops of `read`. */
    method Gather(options: ReadOptions, count: nat, patience: nat)
      returns (data: seq<Byte>, termchar: bool, ending: Ending)
      requires Valid()
      modifies this`readAhead, this`readAheadEnd, this`exchanges, this`arrived, this`closed
      ensures InTurn(exchanges, |old(exchanges)|, options, count, old(readAhead))
      ensures old(readAheadEnd) ==> exchanges == old(exchanges)
      ensures LastMisplaced(exchanges, |old(exchanges)|) <==> ending.OutOfPlace?
      ensures if ending.OutOfPlace? then closed && Valid() && readAhead == []
              else Reading(data) && Received(Content, old(exchanges), old(arrived), exchanges, arrived)
      ensures if ending.Refused? then ending.status.Failed() && LastFailed(exchanges, |old(exchanges)|, ending.status)
              else !CutOff(exchanges, |old(exchanges)|)
      ensures closed ==> old(closed) || ending.OutOfPlace? || LastCloses(exchanges, |old(exchanges)|)
      ensures ending.Finished? ==> |data| <= count
      ensures ending.Finished? ==> EndsAsSaid(options, data, termchar)
      ensures ending.Finished? && !termchar && |data| < count ==>
        readAhead == [] && (old(readAheadEnd) || LastEnded(exchanges, |old(exchanges)|))
    {
      ReceivedNothing(Content, exchanges, arrived);
      var end;
      data, termchar, end := TakeAhead(options, count);
      ending := Finished;
      assert readAhead == [] ==> data + readAhead == data;
      if !end && !termchar && |data| < count {
        data, termchar, end, ending := Transfer(options, count, data, patience);
      }
    }

    /** The end of `read`: the bytes are handed over, unless the operation is over already. */
    method Conclude(count: nat, collected: seq<Byte>, termchar: bool) returns (status: Status, data: seq<Byte>)
      requires Reading(collected)
      modifies this`readAhead, this`handed
      ensures Valid()
      ensures if status.Interrupted() then data == [] && handed == old(handed)
              else
                && data == collected && handed == old(handed) + data && readAhead == old(readAhead)
                && status == if termchar then SuccessTermChar else if |data| == count then SuccessMaxCnt else Success
    {
      data := [];
      var proposed := if termchar then SuccessTermChar else if |collected| == count then SuccessMaxCnt else Success;
      status := TryComplete(proposed);
      if status.Interrupted() {
        RestoreReadAhead(collected);
        return;
      }
      HandOver(collected);
      data := collected;
    }

    /** A read that failed on the way keeps its bytes and, if it was cut off, clears the connection. */
    method Abandon(failed: Status, collected: seq<Byte>) returns (status: Status)
      requires Reading(collected) && failed.Failed()
      modifies this`nextMessageId, this`lastSentMessageId, this`readAhead, this`readAheadEnd, this`wire, this`arrived
      ensures Valid()
      ensures status == failed || (failed.Interrupted() && status == ErrorConnLost)
      ensures if status.Interrupted() then wire == [] && readAhead == [] else wire == old(wire) && arrived == old(arrived)
    {
      RestoreReadAhead(collected);
      status := Recover(failed);
    }

    method HandOver(data: seq<Byte>)
      requires Reading(data)
      modifies this`handed
      ensures Valid() && handed == old(handed) + data
    {
      assert handed + data + readAhead == handed + (data + readAhead);
      handed := handed + data;
    }
  }
}
