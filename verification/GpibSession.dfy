/** The GPIB session's reads. The transport may answer anything at any time; the session keeps what
    arrived and was not handed over, with its end marks, in `readAhead` and `readAheadEnd`. */
module GpibSession {
  import opened History
  import opened Sequences
  import opened Visa

  /** What travels from the instrument: bytes, and the mark that ends a message. */
  datatype Item = Data(b: Byte) | End

  datatype TransportRead = Refused(status: Status) | Chunk(bytes: seq<Byte>, end: bool)

  function Items(bytes: seq<Byte>): (items: seq<Item>)
    ensures |items| == |bytes|
    ensures forall k :: 0 <= k < |bytes| ==> items[k] == Data(bytes[k])
  {
    seq(|bytes|, k requires 0 <= k < |bytes| => Data(bytes[k]))
  }

  function Message(bytes: seq<Byte>, end: bool): seq<Item> {
    Items(bytes) + if end then [End] else []
  }

  lemma ItemsAppend(a: seq<Byte>, b: seq<Byte>)
    ensures Items(a + b) == Items(a) + Items(b)
  {
  }

  /** The chunk a transport that honours its contract may return. */
  predicate Honoured(r: TransportRead, maximum: nat) {
    r.Chunk? && |r.bytes| <= maximum && (r.bytes != [] || r.end)
  }

  /** One answer of the transport, with the size it was asked for. */
  datatype Exchange = Exchange(maximum: nat, answer: TransportRead)

  /** What an answer brings: everything in it, if it honours the contract. */
  function Content(e: Exchange): seq<Item> {
    if Honoured(e.answer, e.maximum) then Message(e.answer.bytes, e.answer.end) else []
  }

  /** Why the last answer ends a read without data, if it does. */
  function Refusal(answers: seq<Exchange>): Option<Status> {
    if answers == [] then None
    else
      var e := answers[|answers| - 1];
      if Honoured(e.answer, e.maximum) then None
      else Some(if e.answer.Refused? then e.answer.status else ErrorIo)
  }

  /** A read of `count` bytes that holds these items needs no more: it is full, or has found an end or its
      termination character. */
  function EnoughItems(options: ReadOptions, count: nat): seq<Item> -> bool {
    (items: seq<Item>) =>
      |items| >= count || exists k :: 0 <= k < |items| && (items[k].End? || IsTermChar(options, items[k].b))
  }

  /** No answer of the same read follows: it brought nothing within its contract, or an end. */
  predicate Ends(e: Exchange) {
    !Honoured(e.answer, e.maximum) || e.answer.end
  }

  ghost predicate GoesOn(answers: seq<Exchange>, from: nat) {
    |answers| > from ==> !Ends(answers[|answers| - 1])
  }

  /** Every answer behind the first `from` was needed on top of what was pending, and asked for with the
      size that was still missing. */
  ghost predicate InTurn(answers: seq<Exchange>, from: nat, options: ReadOptions, count: nat, pending: seq<Item>) {
    && AllNeeded(Content, Ends, EnoughItems(options, count), pending, answers, from)
    && AllSized(answers, from, count, pending)
  }

  ghost predicate AllSized(answers: seq<Exchange>, from: nat, count: nat, pending: seq<Item>) {
    forall k :: from <= k < |answers| ==> Sized(answers[k], answers[..k], from, count, pending)
  }

  ghost predicate Sized(e: Exchange, before: seq<Exchange>, from: nat, count: nat, pending: seq<Item>) {
    e.maximum == count - |pending + Brought(Content, before, from)|
  }

  lemma SizedMore(answers: seq<Exchange>, e: Exchange, from: nat, count: nat, pending: seq<Item>)
    requires from <= |answers| && AllSized(answers, from, count, pending)
    requires Sized(e, answers, from, count, pending)
    ensures AllSized(answers + [e], from, count, pending)
  {
    var more := answers + [e];
    forall k | from <= k < |more| ensures Sized(more[k], more[..k], from, count, pending) {
      assert more[..k] == answers[..k];
      assert answers[..|answers|] == answers;
    }
  }

  lemma InTurnMore(answers: seq<Exchange>, e: Exchange, from: nat, options: ReadOptions, count: nat, pending: seq<Item>)
    requires from <= |answers| && InTurn(answers, from, options, count, pending)
    requires Needy(Content, Ends, EnoughItems(options, count), pending, answers, from)
    requires Sized(e, answers, from, count, pending)
    ensures InTurn(answers + [e], from, options, count, pending)
  {
    NeededMore(Content, Ends, EnoughItems(options, count), pending, answers, e, from);
    SizedMore(answers, e, from, count, pending);
  }

  /** Exactly what the new answers brought has arrived, and each of them was needed. */
  ghost predicate Progress(first: seq<Exchange>, start: seq<Item>, options: ReadOptions, count: nat, pending: seq<Item>,
                           answers: seq<Exchange>, arrived: seq<Item>) {
    Received(Content, first, start, answers, arrived) && InTurn(answers, |first|, options, count, pending)
  }

  lemma NoProgress(answers: seq<Exchange>, arrived: seq<Item>, options: ReadOptions, count: nat, pending: seq<Item>)
    ensures Progress(answers, arrived, options, count, pending, answers, arrived)
  {
    ReceivedNothing(Content, answers, arrived);
  }

  lemma ProgressOn(first: seq<Exchange>, start: seq<Item>, options: ReadOptions, count: nat, pending: seq<Item>,
                   answers: seq<Exchange>, arrived: seq<Item>, answers': seq<Exchange>, arrived': seq<Item>)
    requires Progress(first, start, options, count, pending, answers, arrived)
    requires Needy(Content, Ends, EnoughItems(options, count), pending, answers, |first|)
    requires Received(Content, answers, arrived, answers', arrived') && |answers'| == |answers| + 1
    requires Sized(answers'[|answers|], answers, |first|, count, pending)
    ensures Progress(first, start, options, count, pending, answers', arrived')
  {
    assert Received(Content, first, start, answers', arrived') by {
      ReceivedThen(Content, first, start, answers, arrived, answers', arrived');
    }
    assert answers' == answers + [answers'[|answers|]];
    InTurnMore(answers, answers'[|answers|], |first|, options, count, pending);
  }

  /** When the read-ahead is used up, what has been collected is what was pending and what was brought. */
  lemma CollectedNeedy(handed: seq<Item>, pending: seq<Item>, start: seq<Item>, before: seq<Byte>, arrived: seq<Item>,
                       answers: seq<Exchange>, from: nat, options: ReadOptions, count: nat)
    requires handed + pending == start && handed + Message(before, false) + Message([], false) == arrived
    requires arrived == start + Brought(Content, answers, from)
    requires |before| < count && NoTermChar(options, before) && GoesOn(answers, from)
    ensures Needy(Content, Ends, EnoughItems(options, count), pending, answers, from)
    ensures |before| == |pending + Brought(Content, answers, from)|
  {
    var all := pending + Brought(Content, answers, from);
    Regroup(handed, pending, Brought(Content, answers, from));
    assert handed + Message(before, false) + Message([], false) == handed + Items(before);
    assert all == (handed + all)[|handed|..] && Items(before) == (handed + Items(before))[|handed|..];
  }

  /** What was there when the read began. */
  ghost predicate Began(handed: seq<Item>, pending: seq<Item>, start: seq<Item>) {
    handed + pending == start
  }

  /** The reader holds `before`, and there is no read-ahead. */
  ghost predicate Kept(handed: seq<Item>, before: seq<Byte>, arrived: seq<Item>) {
    handed + Message(before, false) + Message([], false) == arrived
  }

  lemma Asked(first: seq<Exchange>, start: seq<Item>, options: ReadOptions, count: nat, pending: seq<Item>,
              handed: seq<Item>, before: seq<Byte>, answers: seq<Exchange>, arrived: seq<Item>,
              answers': seq<Exchange>, arrived': seq<Item>)
    requires Progress(first, start, options, count, pending, answers, arrived)
    requires Began(handed, pending, start) && Kept(handed, before, arrived)
    requires |before| < count && NoTermChar(options, before) && GoesOn(answers, |first|)
    requires Received(Content, answers, arrived, answers', arrived') && |answers'| == |answers| + 1
    requires answers'[|answers|].maximum == count - |before|
    ensures Progress(first, start, options, count, pending, answers', arrived')
  {
    CollectedNeedy(handed, pending, start, before, arrived, answers, |first|, options, count);
    ProgressOn(first, start, options, count, pending, answers, arrived, answers', arrived');
  }

  /** Moving the first `k` bytes from the read-ahead to the reader. */
  lemma MessageMoved(received: seq<Byte>, ahead: seq<Byte>, k: nat, aheadEnd: bool)
    requires k <= |ahead|
    ensures Message(received + ahead[..k], false) + Message(ahead[k..], aheadEnd)
         == Message(received, false) + Message(ahead, aheadEnd)
  {
    ItemsAppend(received, ahead[..k]);
    ItemsAppend(ahead[..k], ahead[k..]);
    assert ahead[..k] + ahead[k..] == ahead;
    RegroupMarked(Items(received), Items(ahead[..k]), Items(ahead[k..]), if aheadEnd then [End] else []);
  }

  /** The same in front of what was handed over; the end mark moves with the last byte. */
  lemma ReaderMoved(handed: seq<Item>, received: seq<Byte>, ahead: seq<Byte>, k: nat, aheadEnd: bool)
    requires k <= |ahead|
    ensures var end := k == |ahead| && aheadEnd;
            handed + Message(received + ahead[..k], end) + Message(ahead[k..], aheadEnd && !end)
            == handed + Message(received, false) + Message(ahead, aheadEnd)
  {
    MessageMoved(received, ahead, k, aheadEnd);
    Regroup(handed, Message(received, false), Message(ahead, aheadEnd));
    var end := k == |ahead| && aheadEnd;
    assert Message(received + ahead[..k], end) + Message(ahead[k..], aheadEnd && !end)
        == Message(received + ahead[..k], false) + Message(ahead[k..], aheadEnd);
    Regroup(handed, Message(received + ahead[..k], end), Message(ahead[k..], aheadEnd && !end));
  }

  /** An answer goes to the reader behind what it holds. */
  lemma AnswerMoved(handed: seq<Item>, before: seq<Byte>, bytes: seq<Byte>, end: bool)
    ensures handed + Message(before, false) + Message([], false) + Message(bytes, end)
         == handed + Message(before + bytes, end) + Message([], false)
  {
    ItemsAppend(before, bytes);
    assert Message(before, false) + Message(bytes, end) == Message(before + bytes, end);
    Regroup(handed, Message(before, false), Message(bytes, end));
    assert handed + Message(before, false) + Message([], false) == handed + Message(before, false);
  }

  lemma RegroupMarked(x: seq<Item>, y: seq<Item>, z: seq<Item>, tail: seq<Item>)
    ensures ((x + y) + []) + (z + tail) == (x + []) + ((y + z) + tail)
  {
  }

  /** Handing over the first `amount` bytes and keeping the rest in front. */
  lemma MessageSplit(received: seq<Byte>, amount: nat, end: bool, ahead: seq<Byte>, aheadEnd: bool)
    requires amount < |received| && (end ==> ahead == [] && !aheadEnd)
    ensures Message(received, end) + Message(ahead, aheadEnd)
         == Message(received[..amount], false) + Message(received[amount..] + ahead, end || aheadEnd)
  {
    ItemsAppend(received[..amount], received[amount..]);
    assert received[..amount] + received[amount..] == received;
    ItemsAppend(received[amount..], ahead);
    if end {
      assert Message(received[amount..] + ahead, end || aheadEnd) == Items(received[amount..]) + [End];
    }
  }

  lemma MessageCut(handed: seq<Item>, received: seq<Byte>, amount: nat, end: bool, ahead: seq<Byte>, aheadEnd: bool)
    requires amount < |received| && (end ==> ahead == [] && !aheadEnd)
    ensures handed + Message(received, end) + Message(ahead, aheadEnd)
         == handed + Message(received[..amount], false) + Message(received[amount..] + ahead, end || aheadEnd)
  {
    MessageSplit(received, amount, end, ahead, aheadEnd);
    Regroup(handed, Message(received, end), Message(ahead, aheadEnd));
    Regroup(handed, Message(received[..amount], false), Message(received[amount..] + ahead, end || aheadEnd));
  }

  /** Putting everything back. */
  lemma MessageRestored(received: seq<Byte>, end: bool, ahead: seq<Byte>, aheadEnd: bool)
    requires end ==> ahead == [] && !aheadEnd
    ensures Message(received, end) + Message(ahead, aheadEnd) == Message(received + ahead, end || aheadEnd)
  {
    ItemsAppend(received, ahead);
  }

  class Session {
    var readAhead: seq<Byte>
    var readAheadEnd: bool

    /** Every answer the transport has given; only `TransportAnswer` adds to it. */
    ghost var answers: seq<Exchange>
    /** Everything the transport returned within its contract and nobody discarded. */
    ghost var arrived: seq<Item>
    /** What successful reads handed to their callers, end marks included. */
    ghost var handed: seq<Item>

    constructor ()
      ensures Valid() && arrived == []
    {
      readAhead, readAheadEnd := [], false;
      answers, arrived, handed := [], [], [];
    }

    ghost function Pending(): seq<Item>
      reads this
    {
      Message(readAhead, readAheadEnd)
    }

    /** Nothing that arrived is lost, duplicated or reordered. */
    ghost predicate Valid()
      reads this
    {
      handed + Pending() == arrived
    }

    /** In the middle of a read: `received`, and the end mark if `end`, are with the reader. */
    ghost predicate Reading(received: seq<Byte>, end: bool)
      reads this
    {
      && handed + Message(received, end) + Pending() == arrived
      && (end ==> readAhead == [] && !readAheadEnd)
    }

    method RestoreReadAhead(data: seq<Byte>, end: bool)
      requires Reading(data, end)
      modifies this`readAhead, this`readAheadEnd
      ensures Valid()
    {
      MessageRestored(data, end, readAhead, readAheadEnd);
      readAhead := data + readAhead;
      if end {
        readAheadEnd := true;
      }
    }

    /** The transport's answer, under the environment's control, and what it brings. */
    method TransportAnswer(maximum: nat) returns (r: TransportRead)
      modifies this`answers, this`arrived
      ensures r.Refused? ==> r.status.Failed()
      ensures answers == old(answers) + [Exchange(maximum, r)] && answers[|answers| - 1] == Exchange(maximum, r)
      ensures Refusal(answers) == if Honoured(r, maximum) then None else Some(if r.Refused? then r.status else ErrorIo)
      ensures arrived == old(arrived) + Content(Exchange(maximum, r))
      ensures Received(Content, old(answers), old(arrived), answers, arrived)
    {
      r := *;
      if r.Refused? && !r.status.Failed() {
        r := Refused(ErrorIo);
      }
      ReceivedNothing(Content, answers, arrived);
      ReceivedMore(Content, answers, arrived, answers, arrived, Exchange(maximum, r));
      answers := answers + [Exchange(maximum, r)];
      arrived := arrived + Content(Exchange(maximum, r));
    }

    /** `GpibBackendSession::read`. `interrupted` is how a racing cancel or timeout ends the
        operation, if one does, either before the read or when it tries to complete. */
    method Read(count: nat, options: ReadOptions, interrupted: Option<Status>)
      returns (status: Status, data: seq<Byte>)
      requires Valid()
      requires interrupted.Some? ==> interrupted.value.Interrupted()
      modifies this
      ensures Valid() && Progress(old(answers), old(arrived), options, count, old(Pending()), answers, arrived)
      ensures status.Failed() ==> data == [] && handed == old(handed)
      ensures interrupted.Some? ==> status.Failed()
      ensures status.Failed() ==>
        interrupted == Some(status) || (|old(answers)| < |answers| && Refusal(answers) == Some(status))
      ensures !status.Failed() ==>
        |data| <= count && exists ended :: handed == old(handed) + Message(data, ended)
      ensures match status
              case SuccessTermChar => EndsAtTermChar(options, data)
              case SuccessMaxCnt => |data| == count && NoTermChar(options, data)
              case Success => |data| < count && NoTermChar(options, data) && handed == old(handed) + Message(data, true)
              case _ => status.Failed()
    {
      NoProgress(answers, arrived, options, count, Pending());
      var early: bool := *;
      if early && interrupted.Some? {
        return interrupted.value, [];
      }
      var received, end, amount, failure;
      received, end, amount, status, failure := Collect(count, options);
      if failure.Some? {
        RestoreReadAhead(received, end);
        return failure.value, [];
      }
      if interrupted.Some? {
        RestoreReadAhead(received, end);
        return interrupted.value, [];
      }
      status, data := Conclude(count, options, received, end, amount, status);
    }

    /** The end of `read`: bytes up to a termination character are handed over, and otherwise all. */
    method Conclude(count: nat, options: ReadOptions, received: seq<Byte>, end: bool, cut: nat, proposed: Status)
      returns (status: Status, data: seq<Byte>)
      requires Reading(received, end) && cut <= |received| <= count
      requires proposed == SuccessTermChar ==> EndsAtTermChar(options, received[..cut])
      requires proposed != SuccessTermChar ==> NoTermChar(options, received) && (|received| < count ==> end)
      modifies this`readAhead, this`readAheadEnd, this`handed
      ensures Valid() && |data| <= count && exists ended :: handed == old(handed) + Message(data, ended)
      ensures match status
              case SuccessTermChar => EndsAtTermChar(options, data)
              case SuccessMaxCnt => |data| == count && NoTermChar(options, data)
              case Success => |data| < count && NoTermChar(options, data) && handed == old(handed) + Message(data, true)
              case _ => false
    {
      var amount := cut;
      status := proposed;
      if status != SuccessTermChar {
        amount := |received|;
        status := if amount == count then SuccessMaxCnt else Success;
      }
      data := received[..amount];
      HandOver(received, amount, end);
    }

    /** The collecting loop of `read`: how many of the `received` bytes to hand over. */
    method Collect(count: nat, options: ReadOptions)
      returns (received: seq<Byte>, end: bool, amount: nat, status: Status, failure: Option<Status>)
      requires Valid()
      modifies this`readAhead, this`readAheadEnd, this`answers, this`arrived
      ensures Reading(received, end)
      ensures Progress(old(answers), old(arrived), options, count, old(Pending()), answers, arrived)
      ensures failure.Some? ==> failure.value.Failed() && |old(answers)| < |answers| && failure == Refusal(answers)
      ensures failure.None? ==> amount <= |received| <= count
      ensures failure.None? && status == SuccessTermChar ==> EndsAtTermChar(options, received[..amount])
      ensures failure.None? && status != SuccessTermChar ==>
        NoTermChar(options, received) && (|received| < count ==> end)
    {
      received, end, amount, status, failure := [], false, 0, Success, None;
      NoProgress(answers, arrived, options, count, Pending());
      while |received| < count && !end
        invariant Reading(received, end) && (end || GoesOn(answers, |old(answers)|))
        invariant Progress(old(answers), old(arrived), options, count, old(Pending()), answers, arrived)
        invariant Began(handed, old(Pending()), old(arrived))
        invariant |received| <= count && NoTermChar(options, received) && failure.None? && status == Success && amount == 0
        decreases count - |received|, if end then 0 else 1
      {
        if readAhead == [] && readAheadEnd {
          end := TakeEnd(received);
          break;
        }
        var cut;
        received, end, cut, failure := Turn(options, count, received, old(answers), old(arrived), old(Pending()));
        if failure.Some? {
          return;
        }
        if cut > 0 {
          amount, status := cut, SuccessTermChar;
          return;
        }
      }
    }

    /** The end mark goes to the reader. */
    method TakeEnd(received: seq<Byte>) returns (end: bool)
      requires Reading(received, false) && readAhead == [] && readAheadEnd
      modifies this`readAheadEnd
      ensures Reading(received, end) && end
    {
      readAheadEnd := false;
      end := true;
    }

    /** One turn of that loop: a portion, and where a termination character cuts what there is then. */
    method Turn(options: ReadOptions, count: nat, before: seq<Byte>, ghost first: seq<Exchange>,
                ghost start: seq<Item>, ghost pending: seq<Item>)
      returns (received: seq<Byte>, end: bool, cut: nat, failure: Option<Status>)
      requires Reading(before, false) && |before| < count && (readAhead == [] ==> !readAheadEnd)
      requires NoTermChar(options, before) && GoesOn(answers, |first|) && Began(handed, pending, start)
      requires Progress(first, start, options, count, pending, answers, arrived)
      modifies this`readAhead, this`readAheadEnd, this`answers, this`arrived
      ensures Progress(first, start, options, count, pending, answers, arrived) && Reading(received, end)
      ensures |before| <= |received| <= count
      ensures if failure.Some? then failure.value.Failed() && |first| < |answers| && failure == Refusal(answers)
              else end || (|before| < |received| && GoesOn(answers, |first|))
      ensures failure.None? ==>
              cut <= |received| && if cut > 0 then EndsAtTermChar(options, received[..cut]) else NoTermChar(options, received)
    {
      received, end, failure := Gather(options, count, before, first, start, pending);
      cut := 0;
      if failure.None? {
        cut := CutAt(options, received);
      }
    }

    /** One more portion for the reader: from the read-ahead if there is any, otherwise from the
        transport. A failure leaves the reader as it was. The read found the answers `first` and what was
        `pending`. */
    method Gather(options: ReadOptions, count: nat, before: seq<Byte>, ghost first: seq<Exchange>,
                  ghost start: seq<Item>, ghost pending: seq<Item>)
      returns (received: seq<Byte>, end: bool, failure: Option<Status>)
      requires Reading(before, false) && |before| < count && (readAhead == [] ==> !readAheadEnd)
      requires NoTermChar(options, before) && GoesOn(answers, |first|) && Began(handed, pending, start)
      requires Progress(first, start, options, count, pending, answers, arrived)
      modifies this`readAhead, this`readAheadEnd, this`answers, this`arrived
      ensures Progress(first, start, options, count, pending, answers, arrived)
      ensures failure.Some? ==>
              && failure.value.Failed() && |first| < |answers| && failure == Refusal(answers)
              && received == before && !end && Reading(before, false)
      ensures failure.None? ==>
              && Reading(received, end) && before <= received && |received| <= count && (before == received ==> end)
              && (end || GoesOn(answers, |first|))
    {
      failure := None;
      if readAhead != [] {
        received, end := TakeAhead(count, before);
        return;
      }
      ghost var asked, reached := answers, arrived;
      assert Kept(handed, before, arrived);
      received, end, failure := Ask(count, before);
      Asked(first, start, options, count, pending, handed, before, asked, reached, answers, arrived);
    }

    /** The whole of one answer of the transport, which is asked for as many bytes as are missing. */
    method Ask(count: nat, before: seq<Byte>) returns (received: seq<Byte>, end: bool, failure: Option<Status>)
      requires Reading(before, false) && |before| < count && readAhead == [] && !readAheadEnd
      modifies this`answers, this`arrived
      ensures Received(Content, old(answers), old(arrived), answers, arrived)
      ensures |answers| == |old(answers)| + 1 && answers[|old(answers)|].maximum == count - |before|
      ensures failure.Some? ==>
              failure.value.Failed() && failure == Refusal(answers) && received == before && !end && Reading(before, false)
      ensures failure.None? ==>
              && Reading(received, end) && before <= received && |received| <= count && (before == received ==> end)
              && (end || !Ends(answers[|answers| - 1]))
    {
      var answer := TransportAnswer(count - |before|);
      if !Honoured(answer, count - |before|) {
        return before, false, Some(if answer.Refused? then answer.status else ErrorIo);
      }
      AnswerMoved(handed, before, answer.bytes, answer.end);
      received := before + answer.bytes;
      end := answer.end;
      failure := None;
    }

    /** Moves as much read-ahead as fits to the reader. */
    method TakeAhead(count: nat, before: seq<Byte>) returns (received: seq<Byte>, end: bool)
      requires Reading(before, false) && |before| < count && readAhead != []
      modifies this`readAhead, this`readAheadEnd
      ensures Reading(received, end)
      ensures before < received && |received| <= count
      ensures old(readAhead) == received[|before|..] + readAhead
    {
      var remaining := count - |before|;
      var take := if remaining < |readAhead| then remaining else |readAhead|;
      end := false;
      received := Pop(take, before);
      ReaderMoved(handed, before, old(readAhead), take, readAheadEnd);
      if readAhead == [] && readAheadEnd {
        readAheadEnd := false;
        end := true;
      }
    }

    method Pop(take: nat, before: seq<Byte>) returns (received: seq<Byte>)
      requires take <= |readAhead|
      modifies this`readAhead
      ensures received == before + old(readAhead)[..take] && readAhead == old(readAhead)[take..]
    {
      received := before;
      var index := 0;
      while index < take
        invariant 0 <= index <= take
        invariant received == before + old(readAhead)[..index] && readAhead == old(readAhead)[index..]
      {
        received := received + [readAhead[0]];
        readAhead := readAhead[1..];
        index := index + 1;
      }
    }

    /** Commits a successful read: the tail of `received` goes back in front. */
    method HandOver(received: seq<Byte>, amount: nat, end: bool)
      requires Reading(received, end) && amount <= |received|
      modifies this`readAhead, this`readAheadEnd, this`handed
      ensures Valid()
      ensures handed == old(handed) + Message(received[..amount], end && amount == |received|)
    {
      if amount < |received| {
        MessageCut(handed, received, amount, end, readAhead, readAheadEnd);
        readAhead := received[amount..] + readAhead;
        if end {
          readAheadEnd := true;
        }
      } else {
        assert received[..amount] == received;
      }
      handed := handed + Message(received[..amount], end && amount == |received|);
    }

    /** The effect of a discarding `flush`, and of a `clear` the transport carried out. */
    method Discard()
      modifies this`readAhead, this`readAheadEnd, this`arrived
      ensures Valid() && arrived == handed
    {
      readAhead, readAheadEnd := [], false;
      arrived := handed;
    }
  }

  /** How much to hand over if a termination character is among the bytes, and nothing otherwise. */
  method CutAt(options: ReadOptions, received: seq<Byte>) returns (amount: nat)
    ensures amount <= |received|
    ensures if amount > 0 then EndsAtTermChar(options, received[..amount]) else NoTermChar(options, received)
  {
    amount := 0;
    if options.termcharEnabled {
      var found := Find(received, options.termchar);
      if found < |received| {
        amount := found + 1;
        assert received[..amount][..found] == received[..found];
      }
    }
  }

  method Find(s: seq<Byte>, b: Byte) returns (k: nat)
    ensures k <= |s| && (forall i :: 0 <= i < k ==> s[i] != b)
    ensures k < |s| ==> s[k] == b
  {
    k := 0;
    while k < |s| && s[k] != b
      invariant k <= |s| && forall i :: 0 <= i < k ==> s[i] != b
    {
      k := k + 1;
    }
  }
}
