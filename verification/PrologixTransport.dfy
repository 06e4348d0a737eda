/** What the Prologix transport makes of the controller's responses: the portions that the GPIB
    session asks for. */
module PrologixTransport {
  import opened GpibSession
  import opened Sequences
  import opened Visa

  class Transport {
    var response: seq<Byte>
    var responseEnd: bool
    var closed: bool

    /** The responses of the controller, each with its end, less what was discarded. */
    ghost var answered: seq<Item>
    /** How each question to the controller ended; only `Ask` adds to it. */
    ghost var asks: seq<Status>
    /** What went to the session. */
    ghost var passed: seq<Item>

    constructor ()
      ensures Valid() && !closed && answered == []
    {
      response, responseEnd, closed := [], false, false;
      answered, asks, passed := [], [], [];
    }

    /** A response that is not used up still has its end; nothing is lost, duplicated or reordered. */
    ghost predicate Valid()
      reads this
    {
      && (responseEnd <==> response != [])
      && passed + Message(response, responseEnd) == answered
    }

    /** `PrologixController::read`, under the environment's control. */
    method Ask() returns (status: Status, bytes: seq<Byte>)
      requires Valid() && response == []
      modifies this`answered, this`asks
      ensures asks == old(asks) + [status]
      ensures answered == if status.Failed() then old(answered) else old(answered) + Message(bytes, true)
    {
      status, bytes := *, *;
      asks := asks + [status];
      if !status.Failed() {
        answered := answered + Message(bytes, true);
      }
    }

    /** `read`: whatever it returns keeps to the contract that the session's own claims rest on. */
    method Read(interrupted: Option<Status>, maximum: nat) returns (result: TransportRead)
      requires Valid() && maximum > 0
      requires interrupted.Some? ==> interrupted.value.Interrupted()
      modifies this
      ensures Valid() && old(answered) <= answered
      ensures closed == old(closed) && old(asks) <= asks && |asks| <= |old(asks)| + 1
      ensures result.Refused? <==>
        closed || interrupted.Some? || (|old(asks)| < |asks| && asks[|old(asks)|].Failed())
      ensures |old(asks)| < |asks| ==> !closed && interrupted.None? && old(response) == []
      ensures result.Refused? ==>
        (closed && result.status == ErrorConnLost) || interrupted == Some(result.status) || asks == old(asks) + [result.status]
      ensures if result.Refused? then result.status.Failed() && passed == old(passed) && answered == old(answered)
              else Honoured(result, maximum) && passed == old(passed) + Message(result.bytes, result.end)
    {
      if closed {
        return Refused(ErrorConnLost);
      }
      if interrupted.Some? {
        return Refused(interrupted.value);
      }
      if response == [] {
        var status, bytes := Ask();
        if status.Failed() {
          return Refused(status);
        }
        response, responseEnd := response + bytes, true;
        assert response == bytes;
        assert passed + Message([], false) == passed;
      }
      var data, end := Portion(maximum);
      result := Chunk(data, end);
    }

    /** As much of the response as was asked for, with the end once it is used up. */
    method Portion(maximum: nat) returns (data: seq<Byte>, end: bool)
      requires responseEnd && maximum > 0 && passed + Message(response, true) == answered
      modifies this`response, this`responseEnd, this`passed
      ensures Valid() && |data| <= maximum && (data != [] || end)
      ensures passed == old(passed) + Message(data, end)
    {
      var amount := if maximum < |response| then maximum else |response|;
      ghost var whole := response;
      data := Pass(amount);
      end := response == [] && responseEnd;
      if end {
        responseEnd := false;
      }
      assert data + response == whole;
      Cut(passed, data, response, end);
      passed := passed + Message(data, end);
    }

    /** The loop of `read`. */
    method Pass(amount: nat) returns (data: seq<Byte>)
      requires amount <= |response|
      modifies this`response
      ensures data == old(response)[..amount] && response == old(response)[amount..]
    {
      data := [];
      var index := 0;
      while index < amount
        invariant 0 <= index <= amount && data == old(response)[..index] && response == old(response)[index..]
      {
        data := data + [response[0]];
        response := response[1..];
        index := index + 1;
      }
    }

    /** The effect of a `clear` the controller carried out, and of `discard_read_buffer`. */
    method Discard()
      requires Valid()
      modifies this
      ensures Valid() && passed == old(passed) && answered == passed
    {
      response, responseEnd := [], false;
      answered := passed;
    }
  }

  /** A response cut in two is the first part and then the rest with its end. */
  lemma Cut(passed: seq<Item>, data: seq<Byte>, rest: seq<Byte>, end: bool)
    requires end <==> rest == []
    ensures passed + Message(data + rest, true) == passed + Message(data, end) + Message(rest, !end)
  {
    ItemsAppend(data, rest);
    if end {
      assert data + rest == data && Message(rest, false) == [];
    } else {
      Regroup(Items(data), Items(rest), [End]);
      assert Message(data, false) == Items(data);
      Regroup(passed, Items(data), Message(rest, true));
    }
  }
}
