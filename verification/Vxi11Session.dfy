/** The VXI-11 session's writes and reads, one remote call per chunk. The device's replies are the
    environment's. */
module Vxi11Session {
  import opened ChunkedWrite
  import opened History
  import opened Visa

  /** The result of `device_write`: no reply, one that cannot be decoded, or the device's error and
      how much it took. */
  datatype WriteReply = NotWritten(failure: Status) | WriteGarbled | Wrote(error: Status, written: nat)

  /** One `device_write` and what came of it. */
  datatype WriteCall = WriteCall(chunk: Chunk, reply: WriteReply)

  /** What a call ends its write with, if it does so. */
  function WriteFailure(c: WriteCall): Option<Status> {
    match c.reply
    case NotWritten(failure) => Some(failure)
    case WriteGarbled => Some(ErrorIo)
    case Wrote(error, written) =>
      if written > |c.chunk.bytes| then Some(ErrorIo)
      else if error.Failed() then Some(error)
      else if written != |c.chunk.bytes| then Some(ErrorIo)
      else None
  }

  /** The last call, one behind the first `from`, ended in `failure`. */
  predicate LastWriteFailed(calls: seq<WriteCall>, from: nat, failure: Status) {
    from < |calls| && WriteFailure(calls[|calls| - 1]) == Some(failure)
  }

  /** The result of `device_read`, with the reasons the device gives for stopping. */
  datatype ReadReply =
    | NotRead(failure: Status)
    | ReadGarbled
    | ReadFailed(error: Status)
    | Chunked(bytes: seq<Byte>, requestedCount: bool, termChar: bool, end: bool)

  /** The device keeps to the size it was asked for and stops at, and only at, a termination character
      when it says so. */
  ghost predicate Honest(reply: ReadReply, options: ReadOptions, request: nat) {
    reply.Chunked? ==>
      && |reply.bytes| <= request
      && (if reply.termChar then EndsAtTermChar(options, reply.bytes)
          else NoTermChar(options, reply.bytes) || EndsAtTermChar(options, reply.bytes))
  }

  /** One `device_read`: the size asked for, the termination character that goes with it, and what came of
      it. */
  datatype Exchange = Exchange(request: nat, options: ReadOptions, reply: ReadReply)

  function Content(e: Exchange): seq<Byte> {
    if e.reply.Chunked? then e.reply.bytes else []
  }

  /** What an exchange ends its read with, if it does so without data. */
  function Failure(e: Exchange): Option<Status> {
    match e.reply
    case NotRead(failure) => Some(failure)
    case ReadGarbled => Some(ErrorIo)
    case ReadFailed(error) => Some(error)
    case Chunked(bytes, requestedCount, termChar, end) =>
      if bytes == [] && !requestedCount && !termChar && !end then Some(ErrorIo) else None
  }

  /** The last exchange, one behind the first `from`, ended in `failure`. */
  predicate LastFailed(exchanges: seq<Exchange>, from: nat, failure: Status) {
    from < |exchanges| && Failure(exchanges[|exchanges| - 1]) == Some(failure)
  }

  /** The last exchange, one behind the first `from`, brought the end of a message. */
  predicate LastEnded(exchanges: seq<Exchange>, from: nat) {
    from < |exchanges| && var reply := exchanges[|exchanges| - 1].reply; reply.Chunked? && reply.end
  }

  /** Every exchange behind the first `from` asks for what is missing of `wanted` bytes, up to `maximum`, under
      the reader's options. */
  ghost predicate AllAsked(exchanges: seq<Exchange>, from: nat, options: ReadOptions, wanted: int, maximum: nat) {
    forall k :: from <= k < |exchanges| ==> Asks(exchanges[k], options, wanted - |Brought(Content, exchanges[..k], from)|, maximum)
  }

  predicate Asks(e: Exchange, options: ReadOptions, missing: int, maximum: nat) {
    e.options == options && e.request == if missing < maximum then missing else maximum
  }

  lemma AskedMore(exchanges: seq<Exchange>, e: Exchange, from: nat, options: ReadOptions, wanted: int, maximum: nat)
    requires from <= |exchanges| && AllAsked(exchanges, from, options, wanted, maximum)
    requires Asks(e, options, wanted - |Brought(Content, exchanges, from)|, maximum)
    ensures AllAsked(exchanges + [e], from, options, wanted, maximum)
  {
    var more := exchanges + [e];
    assert more[..|exchanges|] == exchanges;
    forall k | from <= k < |more| ensures Asks(more[k], options, wanted - |Brought(Content, more[..k], from)|, maximum) {
      if k < |exchanges| {
        assert more[..k] == exchanges[..k];
      }
    }
  }

  /** No exchange of the same read follows: it failed, or says that a message ends or that a termination
      character was found. */
  predicate Ends(e: Exchange) {
    Failure(e).Some? || (e.reply.Chunked? && (e.reply.end || e.reply.termChar))
  }

  /** Every exchange behind the first `from` was needed, on top of the bytes `ahead`, and asks for what is
      missing. */
  ghost predicate InTurn(exchanges: seq<Exchange>, from: nat, options: ReadOptions, count: nat, maximum: nat, ahead: seq<Byte>) {
    && AllAsked(exchanges, from, options, count - |ahead|, maximum)
    && AllNeeded(Content, Ends, EnoughFor(options, count), ahead, exchanges, from)
  }

  lemma InTurnMore(exchanges: seq<Exchange>, e: Exchange, from: nat, options: ReadOptions, count: nat, maximum: nat,
                   ahead: seq<Byte>)
    requires from <= |exchanges| && InTurn(exchanges, from, options, count, maximum, ahead)
    requires Needy(Content, Ends, EnoughFor(options, count), ahead, exchanges, from)
    requires Asks(e, options, count - |ahead + Brought(Content, exchanges, from)|, maximum)
    ensures InTurn(exchanges + [e], from, options, count, maximum, ahead)
  {
    AskedMore(exchanges, e, from, options, count - |ahead|, maximum);
    NeededMore(Content, Ends, EnoughFor(options, count), ahead, exchanges, e, from);
  }

  ghost predicate Progress(first: seq<Exchange>, before: seq<Byte>, options: ReadOptions, count: nat, maximum: nat,
                           ahead: seq<Byte>, exchanges: seq<Exchange>, arrived: seq<Byte>) {
    Received(Content, first, before, exchanges, arrived) && InTurn(exchanges, |first|, options, count, maximum, ahead)
  }

  lemma ProgressOn(first: seq<Exchange>, before: seq<Byte>, options: ReadOptions, count: nat, maximum: nat, ahead: seq<Byte>,
                   exchanges: seq<Exchange>, arrived: seq<Byte>, exchanges': seq<Exchange>, arrived': seq<Byte>)
    requires Progress(first, before, options, count, maximum, ahead, exchanges, arrived)
    requires Needy(Content, Ends, EnoughFor(options, count), ahead, exchanges, |first|)
    requires Received(Content, exchanges, arrived, exchanges', arrived') && |exchanges'| == |exchanges| + 1
    requires Asks(exchanges'[|exchanges|], options, count - |ahead + Brought(Content, exchanges, |first|)|, maximum)
    ensures Progress(first, before, options, count, maximum, ahead, exchanges', arrived')
  {
    assert Received(Content, first, before, exchanges', arrived') by {
      ReceivedThen(Content, first, before, exchanges, arrived, exchanges', arrived');
    }
    assert exchanges' == exchanges + [exchanges'[|exchanges|]];
    InTurnMore(exchanges, exchanges'[|exchanges|], |first|, options, count, maximum, ahead);
  }

  /** The device was honest in every exchange behind the first `from`. */
  ghost predicate AllHonest(exchanges: seq<Exchange>, from: nat, options: ReadOptions) {
    forall k :: from <= k < |exchanges| ==> Honest(exchanges[k].reply, options, exchanges[k].request)
  }

  datatype Ending = Finished | Refused(status: Status)

  class Session {
    const maximumReceiveSize: nat
    var readAhead: seq<Byte>

    /** The chunks sent to the device. */
    ghost var link: seq<Chunk>
    /** Every call of a write; only `Call` adds to it. */
    ghost var calls: seq<WriteCall>
    /** Every exchange of a read; only `Ask` adds to it. */
    ghost var exchanges: seq<Exchange>
    /** Every byte of a reply that reported no error, and the bytes handed to callers. */
    ghost var arrived: seq<Byte>
    ghost var handed: seq<Byte>

    constructor (maximumReceiveSize: nat)
      requires maximumReceiveSize > 0
      ensures Valid() && this.maximumReceiveSize == maximumReceiveSize && link == [] && arrived == []
    {
      this.maximumReceiveSize := maximumReceiveSize;
      readAhead, link, calls, exchanges, arrived, handed := [], [], [], [], [], [];
    }

    /** Nothing that arrived is lost, duplicated or reordered. */
    ghost predicate Valid()
      reads this
    {
      maximumReceiveSize > 0 && handed + readAhead == arrived
    }

    ghost predicate Reading(data: seq<Byte>)
      reads this
    {
      maximumReceiveSize > 0 && handed + (data + readAhead) == arrived
    }

    /** One `device_write`. */
    method Call(chunk: Chunk) returns (reply: WriteReply)
      modifies this`link, this`calls
      ensures link == old(link) + [chunk] && calls == old(calls) + [WriteCall(chunk, reply)]
      ensures reply.NotWritten? ==> reply.failure.Failed()
    {
      link := link + [chunk];
      reply := *;
      if reply.NotWritten? && !reply.failure.Failed() {
        reply := NotWritten(ErrorIo);
      }
      calls := calls + [WriteCall(chunk, reply)];
    }

    /** `write`. On success the device has taken the whole buffer, cut at the size it announced, with
        the end flag only at its end; a failed write has sent a part of that. */
    method Write(buffer: seq<Byte>, sendEnd: bool) returns (status: Status, count: nat)
      requires Valid()
      modifies this`link, this`calls
      ensures Valid()
      ensures status.Failed() ==> status.Interrupted() || LastWriteFailed(calls, |old(calls)|, status)
      ensures if status.Failed() then count == 0 else count == |buffer|
      ensures SentPart(old(link), link, buffer, maximumReceiveSize, sendEnd)
      ensures !status.Failed() ==> Sent(old(link), link, buffer, |buffer|, maximumReceiveSize, sendEnd)
    {
      count := 0;
      SentNothing(link, buffer, maximumReceiveSize, sendEnd);
      status := TryComplete(Success);
      if status.Interrupted() {
        return;
      }
      status := SendAll(buffer, sendEnd);
      if status.Failed() {
        return;
      }
      status := TryComplete(Success);
      if !status.Failed() {
        count := |buffer|;
      }
    }

    /** The loop of `write`. */
    method SendAll(buffer: seq<Byte>, sendEnd: bool) returns (status: Status)
      requires maximumReceiveSize > 0
      modifies this`link, this`calls
      ensures old(calls) <= calls
      ensures status.Failed() ==> status.Interrupted() || LastWriteFailed(calls, |old(calls)|, status)
      ensures SentPart(old(link), link, buffer, maximumReceiveSize, sendEnd)
      ensures !status.Failed() ==> Sent(old(link), link, buffer, |buffer|, maximumReceiveSize, sendEnd)
    {
      ghost var before := link;
      var offset := 0;
      status := Success;
      SentNothing(link, buffer, maximumReceiveSize, sendEnd);
      while offset < |buffer|
        invariant offset <= |buffer| && !status.Failed() && old(calls) <= calls
        invariant Sent(before, link, buffer, offset, maximumReceiveSize, sendEnd)
      {
        var amount := if |buffer| - offset < maximumReceiveSize then |buffer| - offset else maximumReceiveSize;
        var last := offset + amount == |buffer|;
        var end := last && sendEnd;
        SentMore(before, link, buffer, offset, maximumReceiveSize, sendEnd);
        var reply := Call(Chunk(buffer[offset..offset + amount], end));
        if reply.NotWritten? {
          return reply.failure;
        }
        if reply.WriteGarbled? || reply.written > amount {
          return ErrorIo;
        }
        if reply.error.Failed() {
          status := TryComplete(reply.error);
          return;
        }
        offset := offset + reply.written;
        if reply.written != amount {
          status := TryComplete(ErrorIo);
          return;
        }
      }
    }

    /** The first loop of `read`. */
    method TakeAhead(options: ReadOptions, count: nat) returns (data: seq<Byte>)
      requires Reading([])
      modifies this`readAhead
      ensures Reading(data) && |data| <= count && data + readAhead == old(readAhead)
      ensures EndsAtTermChar(options, data) || (NoTermChar(options, data) && (|data| < count ==> readAhead == []))
    {
      data := [];
      while readAhead != [] && |data| < count
        invariant Reading(data) && |data| <= count && NoTermChar(options, data)
        invariant data + readAhead == old(readAhead)
        decreases |readAhead|
      {
        var byte := readAhead[0];
        assert data + readAhead == (data + [byte]) + readAhead[1..];
        assert (data + [byte])[..|data|] == data;
        readAhead := readAhead[1..];
        data := data + [byte];
        if options.termcharEnabled && byte == options.termchar {
          break;
        }
      }
    }

    /** The loop over a chunk: it stops at a termination character and keeps the rest of the chunk,
        as it keeps what is beyond the count. */
    method Distribute(options: ReadOptions, count: nat, before: seq<Byte>, bytes: seq<Byte>)
      returns (data: seq<Byte>, ended: bool)
      requires readAhead == [] && |before| < count && NoTermChar(options, before)
      modifies this`readAhead
      ensures data + readAhead == before + bytes
      ensures before <= data && |data| <= count
      ensures readAhead != [] ==> ended || |data| == count
      ensures |bytes| <= count - |before| ==>
              if ended then EndsAtTermChar(options, data) else NoTermChar(options, data) && readAhead == []
      ensures |bytes| <= count - |before| && ended ==> !NoTermChar(options, bytes)
    {
      data, ended := before, false;
      var index := 0;
      while index < |bytes|
        invariant 0 <= index <= |bytes| && !ended
        invariant data + readAhead == before + bytes[..index]
        invariant before <= data && |data| <= count
        invariant readAhead != [] ==> |data| == count
        invariant |bytes| <= count - |before| ==> readAhead == [] && NoTermChar(options, data)
      {
        var byte := bytes[index];
        assert bytes[..index + 1] == bytes[..index] + [byte];
        index := index + 1;
        if |data| < count {
          assert readAhead == [] && data + readAhead == data;
          assert (data + [byte])[..|data|] == data;
          data := data + [byte];
        } else {
          assert data + (readAhead + [byte]) == (data + readAhead) + [byte];
          readAhead := readAhead + [byte];
        }
        assert data + readAhead == before + (bytes[..index - 1] + [byte]);
        if options.termcharEnabled && byte == options.termchar {
          ghost var kept := readAhead;
          KeepRest(bytes, index);
          assert data + (kept + bytes[index..]) == (data + kept) + bytes[index..];
          assert (before + bytes[..index]) + bytes[index..] == before + bytes;
          ended := true;
          return;
        }
      }
      assert bytes[..index] == bytes;
    }

    method KeepRest(bytes: seq<Byte>, from: nat)
      requires from <= |bytes|
      modifies this`readAhead
      ensures readAhead == old(readAhead) + bytes[from..]
    {
      var remaining := from;
      while remaining < |bytes|
        invariant from <= remaining <= |bytes| && readAhead == old(readAhead) + bytes[from..remaining]
      {
        assert bytes[from..remaining + 1] == bytes[from..remaining] + [bytes[remaining]];
        readAhead := readAhead + [bytes[remaining]];
        remaining := remaining + 1;
      }
      assert bytes[from..remaining] == bytes[from..];
    }

    method RestoreData(data: seq<Byte>)
      requires Reading(data)
      modifies this`readAhead
      ensures Valid()
    {
      ghost var before := readAhead;
      var index := |data|;
      while index > 0
        invariant 0 <= index <= |data| && readAhead == data[index..] + before
      {
        index := index - 1;
        readAhead := [data[index]] + readAhead;
      }
      assert data[0..] == data;
    }

    /** One `device_read`; when the time is up it brings nothing. */
    method Ask(request: nat, options: ReadOptions, late: bool) returns (reply: ReadReply)
      modifies this`exchanges, this`arrived
      ensures late ==> reply == NotRead(ErrorTmo)
      ensures reply.NotRead? ==> reply.failure.Failed()
      ensures reply.ReadFailed? ==> reply.error.Failed()
      ensures exchanges == old(exchanges) + [Exchange(request, options, reply)]
      ensures arrived == old(arrived) + Content(Exchange(request, options, reply))
      ensures Received(Content, old(exchanges), old(arrived), exchanges, arrived)
    {
      reply := *;
      if late {
        reply := NotRead(ErrorTmo);
      } else if reply.NotRead? && !reply.failure.Failed() {
        reply := NotRead(ErrorIo);
      } else if reply.ReadFailed? && !reply.error.Failed() {
        reply := ReadFailed(ErrorIo);
      }
      ReceivedNothing(Content, exchanges, arrived);
      ReceivedMore(Content, exchanges, arrived, exchanges, arrived, Exchange(request, options, reply));
      exchanges := exchanges + [Exchange(request, options, reply)];
      arrived := arrived + Content(Exchange(request, options, reply));
    }

    /** One round of the second loop of `read`. */
    method Round(options: ReadOptions, count: nat, before: seq<Byte>, late: bool)
      returns (data: seq<Byte>, ended: bool, byTermChar: bool, ending: Ending)
      requires Reading(before) && |before| < count && NoTermChar(options, before) && readAhead == []
      modifies this`readAhead, this`exchanges, this`arrived
      ensures Reading(data) && |data| <= count && Received(Content, old(exchanges), old(arrived), exchanges, arrived)
      ensures |exchanges| == |old(exchanges)| + 1 && old(exchanges) <= exchanges
      ensures Asks(exchanges[|old(exchanges)|], options, count - |before|, maximumReceiveSize)
      ensures late ==> ending.Refused?
      ensures ending.Refused? ==> ending.status.Failed() && data == before
      ensures ending.Refused? ==> ending.status.Interrupted() || LastFailed(exchanges, |old(exchanges)|, ending.status)
      ensures ending.Finished? && ended && !byTermChar ==> LastEnded(exchanges, |old(exchanges)|)
      ensures ending.Finished? && !ended ==> !Ends(exchanges[|old(exchanges)|])
      ensures ending.Finished? && !ended ==> !byTermChar && (|data| < count ==> readAhead == [] && NoTermChar(options, data))
      ensures ending.Finished? && AllHonest(exchanges, |old(exchanges)|, options) ==>
              EndsAsSaid(options, data, byTermChar)
    {
      data, ended, byTermChar := before, false, false;
      var request := if count - |data| < maximumReceiveSize then count - |data| else maximumReceiveSize;
      var reply := Ask(request, options, late);
      assert Exchange(request, options, reply) == exchanges[|exchanges| - 1];
      Arrives(handed, before, Content(Exchange(request, options, reply)));
      match reply {
        case NotRead(failure) => ending := Refused(failure);
        case ReadGarbled => ending := Refused(ErrorIo);
        case ReadFailed(error) =>
          var status := TryComplete(error);
          ending := Refused(status);
        case Chunked(bytes, requestedCount, termChar, end) =>
          if bytes == [] && !requestedCount && !termChar && !end {
            ending := Refused(ErrorIo);
            return;
          }
          var found;
          data, found := Distribute(options, count, before, bytes);
          HonestEnd(options, before, bytes, data, termChar);
          ended := found || end || termChar;
          byTermChar := found || termChar;
          ending := Finished;
      }
    }

    lemma Arrives(handed: seq<Byte>, before: seq<Byte>, bytes: seq<Byte>)
      ensures handed + (before + []) + bytes == handed + (before + bytes)
      ensures bytes == [] ==> handed + (before + []) + bytes == handed + (before + [])
    {
    }

    /** The second loop of `read`. `patience` is how many replies the device gives before the time is
        up. */
    method Transfer(options: ReadOptions, count: nat, before: seq<Byte>, patience: nat)
      returns (data: seq<Byte>, byTermChar: bool, ending: Ending)
      requires Reading(before) && |before| < count && NoTermChar(options, before) && readAhead == []
      modifies this`readAhead, this`exchanges, this`arrived
      ensures Reading(data) && |data| <= count && Received(Content, old(exchanges), old(arrived), exchanges, arrived)
      ensures InTurn(exchanges, |old(exchanges)|, options, count, maximumReceiveSize, before)
      ensures ending.Refused? ==> ending.status.Failed()
      ensures ending.Refused? ==> ending.status.Interrupted() || LastFailed(exchanges, |old(exchanges)|, ending.status)
      ensures ending.Finished? && !byTermChar && |data| < count ==> LastEnded(exchanges, |old(exchanges)|)
      ensures ending.Finished? && AllHonest(exchanges, |old(exchanges)|, options) ==>
              EndsAsSaid(options, data, byTermChar)
    {
      data, byTermChar := before, false;
      var ended, answers := false, patience;
      ReceivedNothing(Content, exchanges, arrived);
      while !ended && |data| < count
        invariant Reading(data) && |data| <= count
        invariant Progress(old(exchanges), old(arrived), options, count, maximumReceiveSize, before, exchanges, arrived)
        invariant !ended ==> |exchanges| == |old(exchanges)| || !Ends(exchanges[|exchanges| - 1])
        invariant !ended ==> !byTermChar
        invariant !ended && |data| < count ==> readAhead == [] && NoTermChar(options, data)
        invariant ended && !byTermChar ==> LastEnded(exchanges, |old(exchanges)|)
        invariant AllHonest(exchanges, |old(exchanges)|, options) ==>
                  EndsAsSaid(options, data, byTermChar)
        decreases answers
      {
        ghost var asked, reached := exchanges, arrived;
        Collected(handed, before, data, old(arrived), arrived, exchanges, |old(exchanges)|);
        data, ended, byTermChar, ending := Round(options, count, data, answers == 0);
        ProgressOn(old(exchanges), old(arrived), options, count, maximumReceiveSize, before, asked, reached, exchanges, arrived);
        if ending.Refused? {
          return;
        }
        answers := answers - 1;
      }
      ending := Finished;
    }

    lemma Collected(handed: seq<Byte>, before: seq<Byte>, data: seq<Byte>, first: seq<Byte>, arrived: seq<Byte>,
                    exchanges: seq<Exchange>, from: nat)
      requires handed + (before + []) == first && handed + (data + []) == arrived
      requires arrived == first + Brought(Content, exchanges, from)
      ensures data == before + Brought(Content, exchanges, from)
    {
      assert data == arrived[|handed|..] && before == first[|handed|..];
    }

    /** When the whole chunk went to the reader, the reader ends as the chunk does. */
    lemma HonestEnd(options: ReadOptions, was: seq<Byte>, bytes: seq<Byte>, data: seq<Byte>, termChar: bool)
      requires NoTermChar(options, was)
      ensures data == was + bytes && termChar && EndsAtTermChar(options, bytes) ==> EndsAtTermChar(options, data)
      ensures NoTermChar(options, was + bytes) <==> NoTermChar(options, bytes)
    {
      if bytes != [] {
        assert (was + bytes)[..|was + bytes| - 1] == was + bytes[..|bytes| - 1];
      }
      assert forall k :: 0 <= k < |bytes| ==> (was + bytes)[|was| + k] == bytes[k];
    }

    /** `read`. Whatever arrived is handed over once and in order, and a failed read keeps it, however
        the device behaves; the status says where the data ends if the device was honest. */
    method Read(options: ReadOptions, count: nat, patience: nat) returns (status: Status, data: seq<Byte>)
      requires Valid()
      modifies this`readAhead, this`exchanges, this`arrived, this`handed
      ensures Valid() && Received(Content, old(exchanges), old(arrived), exchanges, arrived)
      ensures InTurn(exchanges, |old(exchanges)|, options, count, maximumReceiveSize, old(readAhead))
      ensures if status.Failed() then data == [] && handed == old(handed) else handed == old(handed) + data && |data| <= count
      ensures status.Failed() ==> status.Interrupted() || LastFailed(exchanges, |old(exchanges)|, status)
      ensures status == SuccessMaxCnt ==> |data| == count
      ensures status == Success ==> |data| < count && LastEnded(exchanges, |old(exchanges)|)
      ensures !status.Failed() ==> status == SuccessTermChar || status == SuccessMaxCnt || status == Success
      ensures AllHonest(exchanges, |old(exchanges)|, options) && !status.Failed() ==>
              EndsAsSaid(options, data, status == SuccessTermChar)
    {
      data := [];
      ReceivedNothing(Content, exchanges, arrived);
      status := TryComplete(Success);
      if status.Interrupted() {
        return;
      }
      var collected, byTermChar, ending := Collect(options, count, patience);
      if ending.Refused? {
        RestoreData(collected);
        status := ending.status;
        return;
      }
      status, data := Conclude(count, collected, byTermChar);
    }

    /** Both loops of `read`. */
    method Collect(options: ReadOptions, count: nat, patience: nat)
      returns (data: seq<Byte>, byTermChar: bool, ending: Ending)
      requires Valid()
      modifies this`readAhead, this`exchanges, this`arrived
      ensures Reading(data) && |data| <= count && Received(Content, old(exchanges), old(arrived), exchanges, arrived)
      ensures InTurn(exchanges, |old(exchanges)|, options, count, maximumReceiveSize, old(readAhead))
      ensures ending.Refused? ==> ending.status.Failed()
      ensures ending.Refused? ==> ending.status.Interrupted() || LastFailed(exchanges, |old(exchanges)|, ending.status)
      ensures ending.Finished? && !byTermChar && |data| < count ==> LastEnded(exchanges, |old(exchanges)|)
      ensures ending.Finished? && AllHonest(exchanges, |old(exchanges)|, options) ==>
              EndsAsSaid(options, data, byTermChar)
    {
      ReceivedNothing(Content, exchanges, arrived);
      data := TakeAhead(options, count);
      byTermChar := data != [] && IsTermChar(options, data[|data| - 1]);
      ending := Finished;
      assert readAhead == [] ==> data + readAhead == data;
      if !byTermChar && |data| < count {
        data, byTermChar, ending := Transfer(options, count, data, patience);
      }
    }

    /** The end of `read`: the bytes are handed over, unless the operation is over already. */
    method Conclude(count: nat, collected: seq<Byte>, byTermChar: bool) returns (status: Status, data: seq<Byte>)
      requires Reading(collected)
      modifies this`readAhead, this`handed
      ensures Valid()
      ensures if status.Interrupted() then data == [] && handed == old(handed)
              else
                && data == collected && handed == old(handed) + data
                && status == if byTermChar then SuccessTermChar else if |data| == count then SuccessMaxCnt else Success
    {
      data := [];
      var proposed := if byTermChar then SuccessTermChar else if |collected| == count then SuccessMaxCnt else Success;
      status := TryComplete(proposed);
      if status.Interrupted() {
        RestoreData(collected);
        return;
      }
      assert (handed + collected) + readAhead == handed + (collected + readAhead);
      handed := handed + collected;
      data := collected;
    }

    /** The effect of a `clear` that the device completed, and of a discarding `flush`. */
    method Discard()
      requires Valid()
      modifies this`readAhead, this`arrived
      ensures Valid() && readAhead == []
    {
      readAhead := [];
      arrived := handed;
    }
  }
}
