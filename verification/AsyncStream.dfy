/** The read side of the Asio stream session. Every method below runs on the session's strand;
    other threads act only on the operations, at any moment a strand step looks at one. */
module AsyncStream {
  import opened Sequences
  import opened Visa

  type RequestId = nat

  datatype StreamError = OperationAborted | ConnectionLost | AccessDenied | OtherError

  function MapStreamError(e: StreamError): (s: Status)
    ensures s.Failed() && !s.Interrupted()
  {
    match e
    case ConnectionLost => ErrorConnLost
    case AccessDenied => ErrorNPermission
    case OperationAborted => ErrorIo
    case OtherError => ErrorIo
  }

  datatype ReadResult = ReadResult(status: Status, data: seq<Byte>)

  datatype ReadRequest = ReadRequest(
    count: nat,
    options: ReadOptions,
    data: seq<Byte>,
    enqueued: bool,
    active: bool,
    done: bool,
    operation: Option<Status>,
    completion: Option<ReadResult>)
  {
    /** What a set promise may hold: a failed read delivers nothing, and a successful one stops at
        the first termination character, at the count, or where the stream ended. */
    predicate ResultOk() {
      completion.Some? ==>
        var r := completion.value;
        match r.status
        case SuccessTermChar => EndsAtTermChar(options, r.data) && |r.data| <= count
        case SuccessMaxCnt => |r.data| == count && NoTermChar(options, r.data)
        case Success => r.data != [] && NoTermChar(options, r.data) && |r.data| < count
        case _ => r.status.Failed() && r.data == []
    }

    /** Bytes collected so far neither ended the read nor filled it. */
    predicate Collecting() {
      NoTermChar(options, data) && |data| < count
    }

    /** Bytes collected so far end the read. */
    predicate Ended() {
      || (EndsAtTermChar(options, data) && |data| <= count)
      || (NoTermChar(options, data) && |data| == count)
    }

    /** Whether `status` and `data` may complete this request. */
    predicate Acceptable(status: Status) {
      && this.(completion := Some(ReadResult(status, data))).ResultOk()
      && !status.Interrupted()
    }
  }

  /** One more byte ends the read, fills it, or leaves it collecting. */
  lemma ByteTaken(r: ReadRequest, byte: Byte)
    requires r.Collecting()
    ensures var r' := r.(data := r.data + [byte]);
            if IsTermChar(r.options, byte) then r'.Acceptable(SuccessTermChar)
            else if |r'.data| == r.count then r'.Acceptable(SuccessMaxCnt)
            else r'.Collecting()
  {
    assert (r.data + [byte])[..|r.data|] == r.data;
  }

  /** Whether a result may be handed over does not depend on the operation. */
  lemma ResultOkKept(r: ReadRequest, operation: Option<Status>, status: Status)
    requires r.Acceptable(status)
    ensures r.(operation := operation).Acceptable(status)
  {
  }

  type Requests = map<RequestId, ReadRequest>

  ghost predicate Waiting(requests: Requests, id: RequestId) {
    id in requests && requests[id].enqueued && !requests[id].done
  }

  /** The queue holds the waiting requests, each once. */
  ghost predicate QueueOk(requests: Requests, queue: seq<RequestId>) {
    && (forall i :: 0 <= i < |queue| ==> Waiting(requests, queue[i]))
    && (forall i, j :: 0 <= i < j < |queue| ==> queue[i] != queue[j])
    && (forall id :: Waiting(requests, id) ==> id in queue)
  }

  ghost predicate RequestOk(r: ReadRequest, active: bool) {
    && r.active == active
    && r.count > 0
    && (active ==> r.enqueued && !r.done)
    && (!active ==> r.data == [])
    && (r.done <==> r.completion.Some?)
    && r.ResultOk()
    && (r.operation.Some? && !r.done ==> r.operation.value.Interrupted())
  }

  ghost predicate RequestsOk(requests: Requests, active: Option<RequestId>) {
    && (active.Some? ==> active.value in requests)
    && (forall id :: id in requests ==> RequestOk(requests[id], active == Some(id)))
  }

  /** Everything but the request `id` is settled or waiting quietly. */
  ghost predicate OthersOk(requests: Requests, id: RequestId) {
    forall other :: other in requests && other != id ==> RequestOk(requests[other], false)
  }

  /** A settled promise and a completed operation never change. */
  ghost predicate Settled(before: Requests, after: Requests) {
    && before.Keys <= after.Keys
    && forall id :: id in before ==> SettledOne(before[id], after[id])
  }

  predicate SettledOne(r: ReadRequest, r': ReadRequest) {
    && r'.count == r.count && r'.options == r.options
    && (r.completion.Some? ==> r'.completion == r.completion)
    && (r.operation.Some? ==> r'.operation == r.operation)
  }

  lemma SettledStep(first: Requests, before: Requests, id: RequestId, r: ReadRequest)
    requires Settled(first, before) && id in before && SettledOne(before[id], r)
    ensures Settled(first, before[id := r])
  {
  }

  lemma SettledChain(first: Requests, second: Requests, third: Requests)
    requires Settled(first, second) && Settled(second, third)
    ensures Settled(first, third)
  {
    forall id | id in first ensures SettledOne(first[id], third[id]) {
      assert SettledOne(first[id], second[id]) && SettledOne(second[id], third[id]);
    }
  }

  /** Changing a request without changing whether it waits leaves the queue in order. */
  lemma QueueKept(requests: Requests, queue: seq<RequestId>, id: RequestId, r: ReadRequest)
    requires QueueOk(requests, queue) && id in requests
    requires r.enqueued == requests[id].enqueued && r.done == requests[id].done
    ensures QueueOk(requests[id := r], queue)
  {
    var after := requests[id := r];
    assert forall other :: Waiting(after, other) <==> Waiting(requests, other);
  }

  /** Settling the front of the queue and popping it. */
  lemma QueuePopped(requests: Requests, queue: seq<RequestId>, r: ReadRequest)
    requires QueueOk(requests, queue) && queue != [] && r.done
    ensures QueueOk(requests[queue[0] := r], queue[1..])
  {
    var after := requests[queue[0] := r];
    forall other | Waiting(after, other) ensures other in queue[1..] {
      assert Waiting(requests, other);
      var i :| 0 <= i < |queue| && queue[i] == other;
      assert queue[1..][i - 1] == other;
    }
    forall i | 0 <= i < |queue[1..]| ensures Waiting(after, queue[1..][i]) {
      assert queue[1..][i] == queue[i + 1] != queue[0];
    }
  }

  /** A waiting request joins the back of the queue. */
  lemma QueuePushed(requests: Requests, queue: seq<RequestId>, id: RequestId, r: ReadRequest)
    requires QueueOk(requests, queue) && id in requests && !requests[id].enqueued
    requires r.enqueued && !r.done
    ensures QueueOk(requests[id := r], queue + [id])
  {
    var after := requests[id := r];
    forall i | 0 <= i < |queue| ensures queue[i] != id {
      assert Waiting(requests, queue[i]);
    }
    forall other | Waiting(after, other) ensures other in queue + [id] {
      assert other == id || Waiting(requests, other);
    }
    forall i | 0 <= i < |queue + [id]| ensures Waiting(after, (queue + [id])[i]) {
      assert i < |queue| ==> Waiting(requests, queue[i]);
    }
  }

  /** `part` is `whole` with some entries left out. */
  ghost predicate Subsequence(part: seq<RequestId>, whole: seq<RequestId>)
    decreases |whole|
  {
    || part == []
    || (whole != [] &&
        var rest := whole[..|whole| - 1];
        || Subsequence(part, rest)
        || (part[|part| - 1] == whole[|whole| - 1] && Subsequence(part[..|part| - 1], rest)))
  }

  lemma SubsequencePushed(part: seq<RequestId>, whole: seq<RequestId>, id: RequestId)
    requires Subsequence(part, whole)
    ensures Subsequence(part + [id], whole + [id])
  {
    assert (part + [id])[..|part|] == part && (whole + [id])[..|whole|] == whole;
  }

  lemma {:induction false} SubsequenceErased(part: seq<RequestId>, whole: seq<RequestId>, k: nat)
    requires Subsequence(part, whole) && k < |part|
    ensures Subsequence(part[..k] + part[k + 1..], whole)
    decreases |whole|
  {
    var rest, less := whole[..|whole| - 1], part[..k] + part[k + 1..];
    if Subsequence(part, rest) {
      SubsequenceErased(part, rest, k);
    } else if k == |part| - 1 {
      assert less == part[..|part| - 1];
    } else {
      var init := part[..|part| - 1];
      SubsequenceErased(init, rest, k);
      assert less[..|less| - 1] == init[..k] + init[k + 1..];
      assert less[|less| - 1] == part[|part| - 1];
    }
  }

  lemma {:induction false} QueueErasedInOrder(front: seq<RequestId>, queue: seq<RequestId>, id: RequestId,
                                              whole: seq<RequestId>)
    requires Subsequence(front + queue, whole)
    ensures Subsequence(front + EraseFirst(queue, id), whole)
    decreases |queue|
  {
    if queue != [] {
      if queue[0] == id {
        SubsequenceErased(front + queue, whole, |front|);
        assert (front + queue)[..|front|] + (front + queue)[|front| + 1..] == front + queue[1..];
      } else {
        assert front + queue == (front + [queue[0]]) + queue[1..];
        QueueErasedInOrder(front + [queue[0]], queue[1..], id, whole);
        assert front + EraseFirst(queue, id) == (front + [queue[0]]) + EraseFirst(queue[1..], id);
      }
    }
  }

  /** The data that the settled requests of `order` handed to their callers, in that order. */
  ghost function HandedOver(requests: Requests, order: seq<RequestId>): seq<Byte> {
    if order == [] then []
    else
      var id := order[|order| - 1];
      HandedOver(requests, order[..|order| - 1])
      + (if id in requests && requests[id].completion.Some? then requests[id].completion.value.data else [])
  }

  ghost predicate AllSettled(requests: Requests, order: seq<RequestId>) {
    forall k :: 0 <= k < |order| ==> order[k] in requests && requests[order[k]].completion.Some?
  }

  lemma {:induction false} HandedOverKept(before: Requests, after: Requests, order: seq<RequestId>)
    requires Settled(before, after) && AllSettled(before, order)
    ensures AllSettled(after, order) && HandedOver(after, order) == HandedOver(before, order)
  {
    forall k | 0 <= k < |order| ensures order[k] in after && after[order[k]].completion == before[order[k]].completion {
      assert SettledOne(before[order[k]], after[order[k]]);
    }
    if order != [] {
      HandedOverKept(before, after, order[..|order| - 1]);
    }
  }

  lemma HandedOverMore(before: Requests, after: Requests, order: seq<RequestId>, id: RequestId)
    requires Settled(before, after) && AllSettled(before, order)
    requires id in after && after[id].completion.Some?
    ensures AllSettled(after, order + [id])
    ensures HandedOver(after, order + [id]) == HandedOver(before, order) + after[id].completion.value.data
  {
    HandedOverKept(before, after, order);
    assert (order + [id])[..|order|] == order;
  }

  ghost predicate Once(order: seq<RequestId>) {
    forall i, j :: 0 <= i < j < |order| ==> order[i] != order[j]
  }

  /** `enqueued` names every request that was ever enqueued, once. */
  ghost predicate EnqueuedOk(requests: Requests, enqueued: seq<RequestId>) {
    && Once(enqueued)
    && (forall id :: id in requests && requests[id].enqueued ==> id in enqueued)
    && (forall k :: 0 <= k < |enqueued| ==> enqueued[k] in requests && requests[enqueued[k]].enqueued)
  }

  /** Whoever was given data was served. */
  ghost predicate Accounted(requests: Requests, served: seq<RequestId>) {
    forall id :: id in requests && requests[id].completion.Some? && requests[id].completion.value.data != [] ==> id in served
  }

  /** The requests served so far, the active one and the waiting ones are, in that order, in the order
      in which they were enqueued, each once; only the served ones were given data. */
  ghost predicate HistoryOk(requests: Requests, queue: seq<RequestId>, served: seq<RequestId>, enqueued: seq<RequestId>) {
    && AllSettled(requests, served) && Accounted(requests, served) && Once(served)
    && EnqueuedOk(requests, enqueued)
    && Subsequence(served + queue, enqueued)
  }

  /** The requests, the queue over them, the active one and the history fit together. */
  ghost predicate Table(requests: Requests, queue: seq<RequestId>, active: Option<RequestId>,
                        served: seq<RequestId>, enqueued: seq<RequestId>) {
    forall turned: bool :: Key(turned) ==>
      QueueOk(requests, queue) && RequestsOk(requests, active) && HistoryOk(requests, queue, served, enqueued)
  }

  /** The lock on `Table`, `Deciding` and `AllJustified`: a proof looks inside where it mentions the key. */
  predicate Key(turned: bool) {
    true
  }

  /** The same, except that the front request's result is being decided. */
  ghost predicate Deciding(requests: Requests, queue: seq<RequestId>, id: RequestId,
                           served: seq<RequestId>, enqueued: seq<RequestId>) {
    && queue != [] && queue[0] == id
    && forall turned: bool :: Key(turned) ==>
         QueueOk(requests, queue) && OthersOk(requests, id) && HistoryOk(requests, queue, served, enqueued)
  }

  lemma {:induction false} SubsequenceIn(part: seq<RequestId>, whole: seq<RequestId>, k: nat)
    requires Subsequence(part, whole) && k < |part|
    ensures part[k] in whole
    decreases |whole|
  {
    var rest := whole[..|whole| - 1];
    if Subsequence(part, rest) {
      SubsequenceIn(part, rest, k);
    } else if k < |part| - 1 {
      SubsequenceIn(part[..|part| - 1], rest, k);
    }
  }

  /** What is picked in order from entries that differ differs. */
  lemma {:induction false} SubsequenceOnce(part: seq<RequestId>, whole: seq<RequestId>)
    requires Subsequence(part, whole) && Once(whole)
    ensures Once(part)
    decreases |whole|
  {
    if part != [] {
      var rest := whole[..|whole| - 1];
      if Subsequence(part, rest) {
        SubsequenceOnce(part, rest);
      } else {
        var front := part[..|part| - 1];
        SubsequenceOnce(front, rest);
        forall k | 0 <= k < |front| ensures front[k] != part[|part| - 1] {
          SubsequenceIn(front, rest, k);
        }
      }
    }
  }

  lemma OnceOfFront(a: seq<RequestId>, b: seq<RequestId>)
    requires Once(a + b)
    ensures Once(a)
  {
    forall i, j | 0 <= i < j < |a| ensures a[i] != a[j] {
      assert (a + b)[i] != (a + b)[j];
    }
  }

  /** Changing a request without changing what was enqueued, set or delivered leaves the history alone. */
  lemma HistoryKept(requests: Requests, queue: seq<RequestId>, served: seq<RequestId>, enqueued: seq<RequestId>,
                    id: RequestId, r: ReadRequest)
    requires HistoryOk(requests, queue, served, enqueued) && id in requests
    requires r.enqueued == requests[id].enqueued && r.completion == requests[id].completion
    requires SettledOne(requests[id], r)
    ensures HistoryOk(requests[id := r], queue, served, enqueued)
    ensures Settled(requests, requests[id := r])
    ensures HandedOver(requests[id := r], served) == HandedOver(requests, served)
  {
    SettledStep(requests, requests, id, r);
    HandedOverKept(requests, requests[id := r], served);
  }

  lemma TableChanged(requests: Requests, queue: seq<RequestId>, active: Option<RequestId>, served: seq<RequestId>,
                     enqueued: seq<RequestId>, id: RequestId, r: ReadRequest)
    requires Table(requests, queue, active, served, enqueued) && id in requests
    requires r.enqueued == requests[id].enqueued && r.done == requests[id].done
    requires SettledOne(requests[id], r) && RequestOk(r, active == Some(id))
    ensures Table(requests[id := r], queue, active, served, enqueued)
    ensures Settled(requests, requests[id := r])
    ensures HandedOver(requests[id := r], served) == HandedOver(requests, served)
  {
    assert Key(true);
    assert RequestOk(requests[id], active == Some(id));
    QueueKept(requests, queue, id, r);
    HistoryKept(requests, queue, served, enqueued, id, r);
  }

  /** What the table says of one request. */
  lemma TableSays(requests: Requests, queue: seq<RequestId>, active: Option<RequestId>, served: seq<RequestId>,
                  enqueued: seq<RequestId>, id: RequestId)
    requires Table(requests, queue, active, served, enqueued)
    ensures id in requests ==> RequestOk(requests[id], active == Some(id))
    ensures id in queue <==> Waiting(requests, id)
    ensures active.Some? ==> active.value in requests
  {
    assert Key(true);
  }

  lemma DecidingChanged(requests: Requests, queue: seq<RequestId>, id: RequestId, served: seq<RequestId>,
                        enqueued: seq<RequestId>, r: ReadRequest)
    requires Deciding(requests, queue, id, served, enqueued)
    requires id in requests && r.enqueued == requests[id].enqueued && r.done == requests[id].done
    requires SettledOne(requests[id], r) && r.completion == requests[id].completion
    ensures Deciding(requests[id := r], queue, id, served, enqueued)
    ensures Settled(requests, requests[id := r])
    ensures HandedOver(requests[id := r], served) == HandedOver(requests, served)
  {
    assert Key(true);
    QueueKept(requests, queue, id, r);
    HistoryKept(requests, queue, served, enqueued, id, r);
  }

  lemma TableIsDeciding(requests: Requests, queue: seq<RequestId>, active: Option<RequestId>, served: seq<RequestId>,
                        enqueued: seq<RequestId>)
    requires Table(requests, queue, active, served, enqueued) && queue != []
    requires active == None || active == Some(queue[0])
    ensures Deciding(requests, queue, queue[0], served, enqueued)
    ensures Waiting(requests, queue[0]) && RequestOk(requests[queue[0]], active == Some(queue[0]))
  {
    assert Key(true);
    assert Waiting(requests, queue[0]);
  }

  /** A request that waits in the queue. */
  predicate Waits(r: ReadRequest) {
    !r.active && r.enqueued && !r.done && r.completion.None? && r.data == [] && r.count > 0
  }

  lemma FrontWaits(requests: Requests, queue: seq<RequestId>, served: seq<RequestId>, enqueued: seq<RequestId>)
    requires Table(requests, queue, None, served, enqueued) && queue != []
    ensures Deciding(requests, queue, queue[0], served, enqueued) && queue[0] in requests && Waits(requests[queue[0]])
    ensures requests[queue[0]].operation.Some? ==> requests[queue[0]].operation.value.Interrupted()
    ensures Settled(requests, requests)
  {
    assert Key(true);
    TableIsDeciding(requests, queue, None, served, enqueued);
  }

  lemma NewTable(requests: Requests, queue: seq<RequestId>, active: Option<RequestId>, served: seq<RequestId>,
                 enqueued: seq<RequestId>, id: RequestId, r: ReadRequest)
    requires Table(requests, queue, active, served, enqueued) && id !in requests
    requires RequestOk(r, false) && !r.enqueued && !r.done
    ensures Table(requests[id := r], queue, active, served, enqueued)
    ensures Settled(requests, requests[id := r])
    ensures HandedOver(requests[id := r], served) == HandedOver(requests, served)
  {
    assert Key(true);
    var after := requests[id := r];
    assert forall other :: Waiting(after, other) <==> Waiting(requests, other);
    HandedOverKept(requests, after, served);
  }

  lemma JoinHistory(requests: Requests, queue: seq<RequestId>, served: seq<RequestId>, enqueued: seq<RequestId>,
                    id: RequestId, r: ReadRequest)
    requires HistoryOk(requests, queue, served, enqueued) && id in requests && !requests[id].enqueued
    requires r.enqueued && r.completion == requests[id].completion && SettledOne(requests[id], r)
    ensures HistoryOk(requests[id := r], queue + [id], served, enqueued + [id])
    ensures Settled(requests, requests[id := r])
    ensures HandedOver(requests[id := r], served) == HandedOver(requests, served)
  {
    SettledStep(requests, requests, id, r);
    HandedOverKept(requests, requests[id := r], served);
    SubsequencePushed(served + queue, enqueued, id);
    assert served + queue + [id] == served + (queue + [id]);
    forall k | 0 <= k < |enqueued| ensures enqueued[k] != id {
      assert requests[enqueued[k]].enqueued;
    }
  }

  lemma JoinTable(requests: Requests, queue: seq<RequestId>, served: seq<RequestId>, enqueued: seq<RequestId>,
                  id: RequestId, r: ReadRequest)
    requires Table(requests, queue, if queue == [] then None else Some(queue[0]), served, enqueued)
    requires id in requests && !requests[id].enqueued && !requests[id].done && r == requests[id].(enqueued := true)
    ensures Table(requests[id := r], queue + [id], if queue == [] then None else Some(queue[0]), served, enqueued + [id])
    ensures Settled(requests, requests[id := r])
    ensures HandedOver(requests[id := r], served) == HandedOver(requests, served)
    ensures queue != [] ==> queue[0] != id
  {
    assert Key(true);
    assert queue != [] ==> Waiting(requests, queue[0]);
    assert RequestOk(requests[id], false);
    QueuePushed(requests, queue, id, r);
    JoinHistory(requests, queue, served, enqueued, id, r);
  }

  lemma ActivateTable(requests: Requests, queue: seq<RequestId>, served: seq<RequestId>, enqueued: seq<RequestId>,
                      r: ReadRequest)
    requires Table(requests, queue, None, served, enqueued) && queue != [] && queue[0] in requests
    requires r == requests[queue[0]].(active := true)
    ensures Table(requests[queue[0] := r], queue, Some(queue[0]), served, enqueued)
    ensures Settled(requests, requests[queue[0] := r])
    ensures HandedOver(requests[queue[0] := r], served) == HandedOver(requests, served)
    ensures r.data == []
  {
    assert Key(true);
    assert Waiting(requests, queue[0]);
    QueueKept(requests, queue, queue[0], r);
    HistoryKept(requests, queue, served, enqueued, queue[0], r);
  }

  /** The front request is settled without data, unserved. */
  lemma FrontDropped(requests: Requests, queue: seq<RequestId>, served: seq<RequestId>, enqueued: seq<RequestId>,
                     r: ReadRequest)
    requires queue != [] && Deciding(requests, queue, queue[0], served, enqueued)
    requires queue[0] in requests && requests[queue[0]].completion.None? && r.enqueued == requests[queue[0]].enqueued
    requires r.done && RequestOk(r, false) && SettledOne(requests[queue[0]], r) && r.completion.value.data == []
    ensures Table(requests[queue[0] := r], queue[1..], None, served, enqueued)
    ensures Settled(requests, requests[queue[0] := r])
    ensures HandedOver(requests[queue[0] := r], served) == HandedOver(requests, served)
  {
    assert Key(true);
    QueuePopped(requests, queue, r);
    SettledStep(requests, requests, queue[0], r);
    HandedOverKept(requests, requests[queue[0] := r], served);
    QueueErasedInOrder(served, queue, queue[0], enqueued);
  }

  lemma ServedHistory(requests: Requests, queue: seq<RequestId>, served: seq<RequestId>, enqueued: seq<RequestId>,
                      r: ReadRequest)
    requires queue != [] && HistoryOk(requests, queue, served, enqueued) && queue[0] in requests
    requires r.enqueued == requests[queue[0]].enqueued && r.completion.Some? && SettledOne(requests[queue[0]], r)
    ensures HistoryOk(requests[queue[0] := r], queue[1..], served + [queue[0]], enqueued)
    ensures Settled(requests, requests[queue[0] := r])
    ensures HandedOver(requests[queue[0] := r], served + [queue[0]]) == HandedOver(requests, served) + r.completion.value.data
  {
    SettledStep(requests, requests, queue[0], r);
    HandedOverMore(requests, requests[queue[0] := r], served, queue[0]);
    assert served + queue == (served + [queue[0]]) + queue[1..];
    SubsequenceOnce(served + queue, enqueued);
    OnceOfFront(served + [queue[0]], queue[1..]);
  }

  /** The front request is settled and counts as served. */
  lemma FrontServed(requests: Requests, queue: seq<RequestId>, served: seq<RequestId>, enqueued: seq<RequestId>,
                    r: ReadRequest)
    requires queue != [] && Deciding(requests, queue, queue[0], served, enqueued)
    requires queue[0] in requests && requests[queue[0]].completion.None? && r.enqueued == requests[queue[0]].enqueued
    requires r.done && RequestOk(r, false) && SettledOne(requests[queue[0]], r)
    ensures Table(requests[queue[0] := r], queue[1..], None, served + [queue[0]], enqueued)
    ensures Settled(requests, requests[queue[0] := r])
    ensures HandedOver(requests[queue[0] := r], served + [queue[0]]) == HandedOver(requests, served) + r.completion.value.data
  {
    assert Key(true);
    QueuePopped(requests, queue, r);
    ServedHistory(requests, queue, served, enqueued, r);
  }

  lemma FrontLeft(requests: Requests, queue: seq<RequestId>, served: seq<RequestId>, enqueued: seq<RequestId>,
                  r: ReadRequest, ahead: seq<Byte>)
    requires queue != [] && Deciding(requests, queue, queue[0], served, enqueued)
    requires queue[0] in requests && requests[queue[0]].completion.None? && r.enqueued == requests[queue[0]].enqueued
    requires r.done && RequestOk(r, false) && SettledOne(requests[queue[0]], r)
    ensures Table(requests[queue[0] := r], queue[1..], None, served + [queue[0]], enqueued)
    ensures Settled(requests, requests[queue[0] := r])
    ensures HandedOver(requests[queue[0] := r], served + [queue[0]]) + ahead
         == HandedOver(requests, served) + r.completion.value.data + ahead
  {
    FrontServed(requests, queue, served, enqueued, r);
    Regroup(HandedOver(requests, served), r.completion.value.data, ahead);
  }

  /** Between strand steps the front request is on the stream and has drained the read-ahead; what was
      delivered and what it holds, or else the read-ahead, are the bytes received. */
  ghost predicate Conserved(requests: Requests, queue: seq<RequestId>, inFlight: Option<RequestId>, delivered: seq<Byte>,
                            ahead: seq<Byte>, received: seq<Byte>) {
    if queue == [] then inFlight == None && received == delivered + ahead
    else
      && queue[0] in requests && inFlight == Some(queue[0])
      && ahead == [] && requests[queue[0]].Collecting()
      && received == delivered + requests[queue[0]].data
  }

  /** Throwing the read-ahead away takes exactly its bytes off. */
  lemma FlushConserves(requests: Requests, queue: seq<RequestId>, inFlight: Option<RequestId>, delivered: seq<Byte>,
                       ahead: seq<Byte>, received: seq<Byte>)
    requires Conserved(requests, queue, inFlight, delivered, ahead, received)
    ensures |ahead| <= |received|
    ensures Conserved(requests, queue, inFlight, delivered, [], received[..|received| - |ahead|])
  {
    if queue == [] {
      assert (delivered + ahead)[..|delivered|] == delivered + [];
    } else {
      assert received[..|received|] == received;
    }
  }

  lemma PutBack(delivered: seq<Byte>, data: seq<Byte>, ahead: seq<Byte>)
    ensures delivered + data + ahead == delivered + [] + (data + ahead)
  {
  }

  lemma Divided(delivered: seq<Byte>, data: seq<Byte>, bytes: seq<Byte>, consumed: nat)
    requires consumed <= |bytes|
    ensures delivered + data + bytes == delivered + (data + bytes[..consumed]) + bytes[consumed..]
  {
    var some, rest := bytes[..consumed], bytes[consumed..];
    assert some + rest == bytes;
    Regroup(delivered, data, bytes);
    Regroup(data, some, rest);
    Regroup(delivered, data + some, rest);
  }

  /** What the handler does with request `r`, for which `bytes` arrived. */
  ghost predicate Handled(r: ReadRequest, bytes: seq<Byte>, error: Option<StreamError>, r': ReadRequest, reading: bool) {
    var all := r.data + bytes;
    if r.(data := all).Collecting() then
      if error.None? then reading && r' == r.(data := all)
      else Outcome(r'.completion, if all == [] then MapStreamError(error.value) else Success, all)
    else exists taken :: taken <= all && (Outcome(r'.completion, SuccessTermChar, taken) || Outcome(r'.completion, SuccessMaxCnt, taken))
  }

  lemma ConcludedIsHandled(r: ReadRequest, bytes: seq<Byte>, consumed: nat, error: Option<StreamError>, r': ReadRequest,
                           reading: bool)
    requires consumed <= |bytes| && Concluded(r.(data := r.data + bytes[..consumed]), error, r', reading)
    requires if r.(data := r.data + bytes).Collecting() then consumed == |bytes|
             else r.(data := r.data + bytes[..consumed]).Ended()
    ensures Handled(r, bytes, error, r', reading)
  {
    var taken := r.data + bytes[..consumed];
    assert taken <= r.data + bytes;
    assert consumed == |bytes| ==> taken == r.data + bytes;
    assert r.(data := taken).Ended() ==> !r.(data := taken).Collecting();
  }

  /** The same for a request that has got its bytes. */
  ghost predicate Concluded(r: ReadRequest, error: Option<StreamError>, r': ReadRequest, reading: bool) {
    if r.Collecting() then
      if error.None? then reading && r' == r
      else Outcome(r'.completion, if r.data == [] then MapStreamError(error.value) else Success, r.data)
    else Outcome(r'.completion, SuccessTermChar, r.data) || Outcome(r'.completion, SuccessMaxCnt, r.data)
  }

  /** What the promise of a completed read may hold: the collected bytes with the proposed status, or
      nothing, if a cancel or a timeout was first. */
  ghost predicate Outcome(completion: Option<ReadResult>, proposed: Status, data: seq<Byte>) {
    || completion == Some(ReadResult(proposed, data))
    || (completion.Some? && completion.value.status.Interrupted() && completion.value.data == [])
  }

  /** Why a promise holds what it holds: its operation's own result, which is plain success only if the
      stream had failed by then, and a failure only if it is a cancel, a timeout or what the stream
      reported. */
  predicate Justified(r: ReadRequest, terminal: Status, reported: set<Status>) {
    r.completion.Some? ==>
      r.operation == Some(r.completion.value.status) && Justifies(r.completion.value.status, terminal, reported)
  }

  predicate Justifies(status: Status, terminal: Status, reported: set<Status>) {
    && (status == Success ==> terminal.Failed())
    && (status.Failed() ==> status.Interrupted() || status in reported)
  }

  ghost predicate AllJustified(requests: Requests, terminal: Status, reported: set<Status>) {
    forall turned: bool :: Key(turned) ==> forall id :: id in requests ==> Justified(requests[id], terminal, reported)
  }

  lemma StillJustified(requests: Requests, id: RequestId, r: ReadRequest, terminal: Status, reported: set<Status>)
    requires AllJustified(requests, terminal, reported)
    requires || Justified(r, terminal, reported)
             || (id in requests && r.completion == requests[id].completion
                 && (requests[id].operation.Some? ==> r.operation == requests[id].operation))
    ensures AllJustified(requests[id := r], terminal, reported)
  {
    assert Key(true);
  }

  class ReadEngine {
    var requests: Requests
    var readQueue: seq<RequestId>
    var readAhead: seq<Byte>
    var terminalStatus: Status
    /** The request whose read is outstanding on the stream. */
    var inFlight: Option<RequestId>

    /** Every byte the stream delivered and no flush discarded, in order. */
    ghost var received: seq<Byte>
    /** The requests that were active and have been completed, in that order. */
    ghost var served: seq<RequestId>
    /** The requests in the order they were enqueued. */
    ghost var enqueued: seq<RequestId>
    /** The errors that the stream has reported, as status codes. */
    ghost var reported: set<Status>

    constructor ()
      ensures Valid() && requests == map[] && received == []
    {
      requests, readQueue, readAhead, terminalStatus, inFlight := map[], [], [], Success, None;
      received, served, enqueued, reported := [], [], [], {};
    }

    /** The bytes the callers of the completed reads have got. */
    ghost function Delivered(): seq<Byte>
      reads this
    {
      HandedOver(requests, served)
    }

    /** The stream has not failed, or with an error that it reported; and every promise that is set is
        justified. */
    ghost predicate TerminalOk()
      reads this
    {
      && (terminalStatus == Success || (terminalStatus.Failed() && !terminalStatus.Interrupted() && terminalStatus in reported))
      && AllJustified(requests, terminalStatus, reported)
    }

    /** Between two requests: nothing is active. */
    ghost predicate Idle()
      reads this
    {
      && Table(requests, readQueue, None, served, enqueued) && TerminalOk()
      && inFlight == None
      && received == Delivered() + readAhead
    }

    /** The front of the queue is active and its read is not on the stream. */
    ghost predicate Serving(id: RequestId)
      reads this
    {
      && readQueue != [] && readQueue[0] == id && id in requests
      && Table(requests, readQueue, Some(id), served, enqueued) && TerminalOk()
      && inFlight == None
      && received == Delivered() + requests[id].data + readAhead
    }

    /** What holds between strand steps: a non-empty queue has exactly one active request, its
        front, whose read is outstanding and which has drained the read-ahead; no byte is lost,
        duplicated or reordered; requests become active in the order they were enqueued; and a stream
        that has failed is not read again and keeps nobody waiting. */
    ghost predicate Valid()
      reads this
    {
      && Table(requests, readQueue, Active(), served, enqueued) && TerminalOk()
      && Conserved(requests, readQueue, inFlight, Delivered(), readAhead, received)
      && (terminalStatus.Failed() ==> readQueue == [])
    }

    ghost function Active(): Option<RequestId>
      reads this
    {
      if readQueue == [] then None else Some(readQueue[0])
    }

    /** Another thread may complete the operation, with an abort or a timeout, just before the
        strand looks at it. */
    method Interfere(id: RequestId)
      requires id in requests
      modifies this`requests
      ensures id in requests && requests == old(requests)[id := old(requests)[id].(operation := requests[id].operation)]
      ensures requests[id].operation == old(requests)[id].operation
           || (old(requests)[id].operation.None? && requests[id].operation in {Some(ErrorAbort), Some(ErrorTmo)})
    {
      if requests[id].operation.None? {
        if {
          case true => return;
          case true => requests := requests[id := requests[id].(operation := Some(ErrorAbort))];
          case true => requests := requests[id := requests[id].(operation := Some(ErrorTmo))];
        }
      } else {
        assert requests == requests[id := requests[id].(operation := requests[id].operation)];
      }
    }

    /** `Operation::completed`. */
    method Completed(id: RequestId) returns (completed: bool)
      requires id in requests
      modifies this`requests
      ensures id in requests && requests == old(requests)[id := old(requests)[id].(operation := requests[id].operation)]
      ensures requests[id].operation == old(requests)[id].operation
           || (old(requests)[id].operation.None? && requests[id].operation in {Some(ErrorAbort), Some(ErrorTmo)})
      ensures completed <==> requests[id].operation.Some?
    {
      Interfere(id);
      completed := requests[id].operation.Some?;
    }

    /** `Operation::try_complete`. */
    method TryComplete(id: RequestId, proposed: Status) returns (won: bool)
      requires id in requests && (requests[id].operation.Some? ==> requests[id].operation.value.Interrupted())
      modifies this`requests
      ensures id in requests && requests == old(requests)[id := old(requests)[id].(operation := requests[id].operation)]
      ensures requests[id].operation.Some?
      ensures if won then old(requests)[id].operation.None? && requests[id].operation.value == proposed
              else requests[id].operation.value.Interrupted()
      ensures old(requests)[id].operation.Some? ==> requests[id].operation == old(requests)[id].operation
    {
      Interfere(id);
      if requests[id].operation.None? {
        requests := requests[id := requests[id].(operation := Some(proposed))];
        return true;
      }
      return false;
    }

    /** `fulfill_read`: a promise is set at most once. */
    method Fulfill(id: RequestId, status: Status, data: seq<Byte>)
      requires id in requests
      modifies this`requests
      ensures requests == if old(requests)[id].done then old(requests) else
                old(requests)[id := old(requests)[id].(done := true, completion := Some(ReadResult(status, data)))]
    {
      if requests[id].done {
        return;
      }
      requests := requests[id := requests[id].(done := true, completion := Some(ReadResult(status, data)))];
    }

    /** A request joins the engine when a caller starts a read. */
    method NewRequest(id: RequestId, count: nat, options: ReadOptions)
      requires Valid() && id !in requests && count > 0
      modifies this`requests
      ensures Valid() && Settled(old(requests), requests) && requests.Keys == old(requests.Keys) + {id}
      ensures requests[id] == ReadRequest(count, options, [], false, false, false, None, None)
    {
      var r := ReadRequest(count, options, [], false, false, false, None, None);
      NewTable(requests, readQueue, Active(), served, enqueued, id, r);
      StillJustified(requests, id, r, terminalStatus, reported);
      requests := requests[id := r];
    }

    /** The caller's handler posts its request: it goes to the end of the queue, and is started if it is
        alone there. */
    method EnqueueRead(id: RequestId)
      requires Valid() && id in requests && !requests[id].enqueued
      modifies this`requests, this`readQueue, this`readAhead, this`inFlight, this`served, this`enqueued
      ensures Valid() && Settled(old(requests), requests) && old(served) <= served
      ensures enqueued == if old(requests)[id].done then old(enqueued) else old(enqueued) + [id]
      ensures !old(requests)[id].done && old(readQueue) != [] ==> readQueue == old(readQueue) + [id]
    {
      if requests[id].done {
        return;
      }
      Join(id);
      if |readQueue| == 1 {
        ghost var before := requests;
        StartNextRead();
        SettledChain(old(requests), before, requests);
      }
    }

    /** Puts a request at the back of the queue. */
    method Join(id: RequestId)
      requires Valid() && id in requests && !requests[id].enqueued && !requests[id].done
      modifies this`requests, this`readQueue, this`enqueued
      ensures readQueue == old(readQueue) + [id] && enqueued == old(enqueued) + [id]
      ensures Settled(old(requests), requests)
      ensures if |readQueue| == 1 then Idle() else Valid()
    {
      var r := requests[id].(enqueued := true);
      JoinTable(requests, readQueue, served, enqueued, id, r);
      StillJustified(requests, id, r, terminalStatus, reported);
      requests := requests[id := r];
      readQueue := readQueue + [id];
      enqueued := enqueued + [id];
    }

    /** Starts the first request that can still run; every earlier one is settled without data. */
    method StartNextRead()
      requires Idle()
      modifies this`requests, this`readQueue, this`readAhead, this`inFlight, this`served
      ensures Valid() && Settled(old(requests), requests) && old(served) <= served
      decreases |readQueue|, 1
    {
      while readQueue != []
        invariant Idle() && Settled(old(requests), requests) && old(served) <= served
        invariant |readQueue| <= old(|readQueue|)
        decreases |readQueue|
      {
        var id := readQueue[0];
        TableSays(requests, readQueue, None, served, enqueued, id);
        if requests[id].done {
          assert false;
        }
        ghost var before := requests;
        var stopped := StopBeforeStart(id);
        SettledChain(old(requests), before, requests);
        if stopped {
          continue;
        }
        before := requests;
        Activate(id);
        SettledChain(old(requests), before, requests);
        before := requests;
        ConsumeReadAhead(id);
        SettledChain(old(requests), before, requests);
        return;
      }
    }

    method Activate(id: RequestId)
      requires Idle() && readQueue != [] && readQueue[0] == id
      modifies this`requests
      ensures Serving(id) && Settled(old(requests), requests) && requests[id].data == []
    {
      TableIsDeciding(requests, readQueue, None, served, enqueued);
      var r := requests[id].(active := true);
      ActivateTable(requests, readQueue, served, enqueued, r);
      StillJustified(requests, id, r, terminalStatus, reported);
      requests := requests[id := r];
    }

    /** Settles the front request if its operation is over, its deadline has passed, or the stream
        has failed and nothing is left to read. */
    method StopBeforeStart(id: RequestId) returns (stopped: bool)
      requires Idle() && readQueue != [] && readQueue[0] == id
      modifies this`requests, this`readQueue
      ensures Idle() && Settled(old(requests), requests)
      ensures stopped ==> readQueue == old(readQueue)[1..]
      ensures !stopped ==> readQueue == old(readQueue) && (terminalStatus.Failed() ==> readAhead != [])
    {
      FrontWaits(requests, readQueue, served, enqueued);
      stopped := MustStop(id);
      if stopped {
        DropStopped(id, old(requests));
      }
    }

    /** The front request is dropped with the result that its operation has got since `before`. */
    method DropStopped(id: RequestId, ghost before: Requests)
      requires Deciding(before, readQueue, id, served, enqueued) && id in before && id in requests
      requires Waits(before[id]) && (before[id].operation.Some? ==> requests[id].operation == before[id].operation)
      requires requests == before[id := before[id].(operation := requests[id].operation)]
      requires requests[id].operation.Some? && requests[id].operation.value.Failed()
      requires AllJustified(before, terminalStatus, reported) && Justifies(requests[id].operation.value, terminalStatus, reported)
      modifies this`requests, this`readQueue
      ensures AllJustified(requests, terminalStatus, reported)
      ensures Table(requests, readQueue, None, served, enqueued) && Settled(before, requests)
      ensures readQueue == old(readQueue)[1..] && Delivered() == HandedOver(before, served)
    {
      DecidingChanged(before, readQueue, id, served, enqueued, requests[id]);
      StillJustified(before, id, requests[id], terminalStatus, reported);
      ghost var stopped := requests;
      Drop(id, requests[id].operation.value);
      SettledChain(before, stopped, requests);
    }

    /** Completes the front request's operation if it cannot start. */
    method MustStop(id: RequestId) returns (stopped: bool)
      requires id in requests && (requests[id].operation.Some? ==> requests[id].operation.value.Interrupted())
      modifies this`requests
      ensures id in requests && requests == old(requests)[id := old(requests)[id].(operation := requests[id].operation)]
      ensures old(requests)[id].operation.Some? ==> requests[id].operation == old(requests)[id].operation
      ensures stopped ==> requests[id].operation.Some? && requests[id].operation.value.Failed()
      ensures stopped ==> requests[id].operation.value.Interrupted() || requests[id].operation.value == terminalStatus
      ensures !stopped ==> requests == old(requests) && (terminalStatus.Failed() ==> readAhead != [])
    {
      var completed := Completed(id);
      stopped := true;
      if !completed {
        var late: bool := *;
        if late {
          var won := TryComplete(id, ErrorTmo);
        } else if terminalStatus.Failed() && readAhead == [] {
          var won := TryComplete(id, terminalStatus);
        } else {
          stopped := false;
          assert requests == old(requests);
        }
      }
    }

    /** Pops the front of the queue and settles it with a failure. */
    method Drop(id: RequestId, status: Status)
      requires Deciding(requests, readQueue, id, served, enqueued) && id in requests && status.Failed()
      requires Waits(requests[id]) && requests[id].operation == Some(status)
      requires AllJustified(requests, terminalStatus, reported) && Justifies(status, terminalStatus, reported)
      modifies this`requests, this`readQueue
      ensures AllJustified(requests, terminalStatus, reported)
      ensures Table(requests, readQueue, None, served, enqueued) && Settled(old(requests), requests)
      ensures readQueue == old(readQueue)[1..] && Delivered() == old(Delivered())
    {
      ghost var dropped := requests[id].(done := true, completion := Some(ReadResult(status, [])));
      FrontDropped(requests, readQueue, served, enqueued, dropped);
      StillJustified(requests, id, dropped, terminalStatus, reported);
      readQueue := readQueue[1..];
      Fulfill(id, status, []);
    }

    /** Feeds the active request from the read-ahead, and ends it or puts it on the stream. */
    method ConsumeReadAhead(id: RequestId)
      requires Serving(id) && requests[id].data == []
      modifies this`requests, this`readQueue, this`readAhead, this`inFlight, this`served
      ensures Valid() && Settled(old(requests), requests) && old(served) <= served
      decreases |readQueue|, 0, 3
    {
      var ended := Drain(id);
      ghost var drained := requests;
      if ended.Some? {
        CompleteActiveRead(id, ended.value);
        SettledChain(old(requests), drained, requests);
        return;
      }
      ServeDrained(id);
      SettledChain(old(requests), drained, requests);
    }

    /** With no read-ahead left: the terminal status ends the request, or the stream is read. */
    method ServeDrained(id: RequestId)
      requires Serving(id) && requests[id].Collecting() && readAhead == []
      modifies this`requests, this`readQueue, this`readAhead, this`inFlight, this`served
      ensures Valid() && Settled(old(requests), requests) && old(served) <= served
      decreases |readQueue|, 0, 2
    {
      if terminalStatus.Failed() {
        CompleteActiveRead(id, if requests[id].data == [] then terminalStatus else Success);
        return;
      }
      IssueRead(id);
    }

    /** Its loop, byte by byte: the status if the request ended before the read-ahead did. */
    method Drain(id: RequestId) returns (ended: Option<Status>)
      requires Serving(id) && requests[id].data == []
      modifies this`requests, this`readAhead
      ensures Serving(id) && Settled(old(requests), requests)
      ensures if ended.Some? then
                requests[id].Acceptable(ended.value) && (ended.value == SuccessTermChar || ended.value == SuccessMaxCnt)
              else requests[id].Collecting() && readAhead == []
    {
      TableSays(requests, readQueue, Some(id), served, enqueued, id);
      while readAhead != []
        invariant Serving(id) && requests[id].Collecting()
        invariant Settled(old(requests), requests)
        decreases |readAhead|
      {
        ghost var before := requests;
        var byte := TakeByte(id);
        SettledChain(old(requests), before, requests);
        if IsTermChar(requests[id].options, byte) {
          return Some(SuccessTermChar);
        }
        if |requests[id].data| == requests[id].count {
          return Some(SuccessMaxCnt);
        }
      }
      ended := None;
    }

    /** Moves the first read-ahead byte to the active request. */
    method TakeByte(id: RequestId) returns (byte: Byte)
      requires Serving(id) && readAhead != [] && requests[id].Collecting()
      modifies this`requests, this`readAhead
      ensures byte == old(readAhead)[0] && readAhead == old(readAhead)[1..]
      ensures Serving(id) && Settled(old(requests), requests)
      ensures if IsTermChar(requests[id].options, byte) then requests[id].Acceptable(SuccessTermChar)
              else if |requests[id].data| == requests[id].count then requests[id].Acceptable(SuccessMaxCnt)
              else requests[id].Collecting()
    {
      byte := readAhead[0];
      TableIsDeciding(requests, readQueue, Some(id), served, enqueued);
      var r := requests[id].(data := requests[id].data + [byte]);
      ghost var data, rest := requests[id].data, readAhead[1..];
      assert readAhead == [byte] + rest;
      Regroup(data, [byte], rest);
      Regroup(Delivered(), data, readAhead);
      Regroup(Delivered(), r.data, rest);
      ByteTaken(requests[id], byte);
      TableChanged(requests, readQueue, Some(id), served, enqueued, id, r);
      StillJustified(requests, id, r, terminalStatus, reported);
      readAhead := readAhead[1..];
      requests := requests[id := r];
    }

    /** Puts one read on the stream for the active request. */
    method IssueRead(id: RequestId)
      requires inFlight == None
      modifies this`inFlight
      ensures inFlight == Some(id)
    {
      inFlight := Some(id);
    }

    /** The bytes an interrupted read collected go back in front, last byte first. */
    method RestorePartialRead(id: RequestId)
      requires id in requests
      modifies this`requests, this`readAhead
      ensures readAhead == old(requests)[id].data + old(readAhead)
      ensures requests == old(requests)[id := old(requests)[id].(data := [])]
    {
      var r := requests[id];
      var index := |r.data|;
      while index > 0
        invariant 0 <= index <= |r.data|
        invariant readAhead == r.data[index..] + old(readAhead)
        invariant requests == old(requests)
      {
        index := index - 1;
        readAhead := [r.data[index]] + readAhead;
      }
      assert r.data[0..] == r.data;
      requests := requests[id := r.(data := [])];
    }

    /** `complete_active_read` with a status the engine proposes itself. */
    method CompleteActiveRead(id: RequestId, proposed: Status)
      requires Serving(id) && requests[id].Acceptable(proposed) && Justifies(proposed, terminalStatus, reported)
      modifies this`requests, this`readQueue, this`readAhead, this`inFlight, this`served
      ensures Valid() && Settled(old(requests), requests) && old(served) <= served
      ensures id in requests && Outcome(requests[id].completion, proposed, old(requests)[id].data)
      decreases |readQueue|, 0, 1
    {
      var won := Claim(id, proposed);
      ghost var before := requests;
      if won {
        FinishActiveRead(id, proposed);
      } else {
        Retreat(id);
        SettledChain(old(requests), before, requests);
        before := requests;
        FinishActiveRead(id, requests[id].operation.value);
      }
      SettledChain(old(requests), before, requests);
    }

    /** Claims the operation for `proposed`, unless a cancel or a timeout was first. */
    method Claim(id: RequestId, proposed: Status) returns (won: bool)
      requires Serving(id) && requests[id].Acceptable(proposed)
      modifies this`requests
      ensures Undecided(id) && Settled(old(requests), requests)
      ensures requests[id] == old(requests)[id].(operation := requests[id].operation)
      ensures if won then MayHandOver(requests[id], proposed) && requests[id].operation == Some(proposed)
              else requests[id].operation.Some? && requests[id].operation.value.Interrupted()
    {
      TableIsDeciding(requests, readQueue, Some(id), served, enqueued);
      won := TryComplete(id, proposed);
      DecidingChanged(old(requests), readQueue, id, served, enqueued, requests[id]);
      StillJustified(old(requests), id, requests[id], terminalStatus, reported);
      ResultOkKept(old(requests)[id], requests[id].operation, proposed);
    }

    /** Puts the bytes back; the read will deliver nothing. */
    method Retreat(id: RequestId)
      requires Undecided(id)
      modifies this`requests, this`readAhead
      ensures Undecided(id) && Settled(old(requests), requests)
      ensures requests == old(requests)[id := old(requests)[id].(data := [])]
    {
      DecidingChanged(requests, readQueue, id, served, enqueued, requests[id].(data := []));
      StillJustified(requests, id, requests[id].(data := []), terminalStatus, reported);
      PutBack(Delivered(), requests[id].data, readAhead);
      RestorePartialRead(id);
    }

    /** The rest of `complete_active_read`, once the operation's result is known. */
    method FinishActiveRead(id: RequestId, status: Status)
      requires Finishing(id, status)
      modifies this`requests, this`readQueue, this`readAhead, this`inFlight, this`served
      ensures Valid() && Settled(old(requests), requests) && old(served) <= served
      ensures id in requests && requests[id].completion == Some(ReadResult(status, old(requests)[id].data))
      ensures old(served) + [id] <= served
      decreases |readQueue|, 0, 0
    {
      Leave(id, status);
      ghost var before := requests;
      StartNextRead();
      SettledChain(old(requests), before, requests);
    }

    ghost predicate MayHandOver(r: ReadRequest, status: Status) {
      r.(completion := Some(ReadResult(status, r.data))).ResultOk()
    }

    /** The active request's promise is not set, and its operation may have any result. */
    ghost predicate Undecided(id: RequestId)
      reads this
    {
      && Deciding(requests, readQueue, id, served, enqueued) && id in requests && TerminalOk() && inFlight == None
      && requests[id].enqueued && !requests[id].done
      && requests[id].count > 0 && requests[id].completion.None?
      && received == Delivered() + requests[id].data + readAhead
    }

    /** The active request's result is known but its promise is not set. */
    ghost predicate Finishing(id: RequestId, status: Status)
      reads this
    {
      && Undecided(id) && MayHandOver(requests[id], status)
      && requests[id].operation == Some(status) && Justifies(status, terminalStatus, reported)
    }

    /** The active request leaves the queue and its promise is set. */
    method Leave(id: RequestId, status: Status)
      requires Finishing(id, status)
      modifies this`requests, this`readQueue, this`served
      ensures Idle() && Settled(old(requests), requests) && readQueue == old(readQueue)[1..]
      ensures served == old(served) + [id]
      ensures requests[id].completion == Some(ReadResult(status, old(requests)[id].data))
    {
      var r := requests[id];
      ghost var settled := r.(active := false, data := [], done := true, completion := Some(ReadResult(status, r.data)));
      FrontLeft(requests, readQueue, served, enqueued, settled, readAhead);
      StillJustified(requests, id, settled, terminalStatus, reported);
      requests := requests[id := r.(active := false, data := [])];
      readQueue := readQueue[1..];
      served := served + [id];
      Fulfill(id, status, if status.Failed() then [] else r.data);
      assert requests == old(requests)[id := settled];
    }

    /** The handler of the outstanding read: `bytes` arrived, perhaps with an error. As long as they
        neither end the request nor fill it and there is no error, it stays active and is read on; an
        error ends it with the data that it has, or with the error if it has none. */
    method OnRead(bytes: seq<Byte>, error: Option<StreamError>)
      requires Valid() && inFlight.Some?
      modifies this`requests, this`readQueue, this`readAhead, this`inFlight, this`served, this`terminalStatus,
               this`received, this`reported
      ensures Valid() && Settled(old(requests), requests) && old(served) <= served
      ensures received == old(received) + bytes
      ensures reported == old(reported) + if error.Some? then {MapStreamError(error.value)} else {}
      ensures error.None? ==> terminalStatus == old(terminalStatus)
      ensures error.Some? && error != Some(OperationAborted) && bytes != [] ==>
              terminalStatus == MapStreamError(error.value)
      ensures var id := old(inFlight).value;
              id in old(requests) && id in requests && Handled(old(requests)[id], bytes, error, requests[id], inFlight == Some(id))
    {
      var id := inFlight.value;
      var consumed := Receive(id, bytes, error);
      ghost var arrived := requests;
      HandleRead(id, error);
      SettledChain(old(requests), arrived, requests);
      ConcludedIsHandled(old(requests)[id], bytes, consumed, error, requests[id], inFlight == Some(id));
    }

    /** The first part of the handler: the bytes go to the request and the read-ahead. */
    method Receive(id: RequestId, bytes: seq<Byte>, error: Option<StreamError>) returns (consumed: nat)
      requires Valid() && inFlight == Some(id)
      modifies this`requests, this`readAhead, this`inFlight, this`received, this`reported
      ensures Serving(id) && Settled(old(requests), requests)
      ensures received == old(received) + bytes
      ensures reported == old(reported) + if error.Some? then {MapStreamError(error.value)} else {}
      ensures id in old(requests) && consumed <= |bytes| && readAhead == bytes[consumed..]
      ensures requests[id] == old(requests)[id].(data := old(requests)[id].data + bytes[..consumed])
      ensures if old(requests)[id].(data := old(requests)[id].data + bytes).Collecting()
              then requests[id].Collecting() && consumed == |bytes| else requests[id].Ended()
    {
      inFlight := None;
      received := received + bytes;
      if error.Some? {
        reported := reported + {MapStreamError(error.value)};
      }
      var r;
      r, consumed := TakeArrived(requests[id], bytes);
      Arrived(id, r, bytes, consumed);
    }

    /** The loop of the handler: the bytes that belong to the request. */
    method TakeArrived(request: ReadRequest, bytes: seq<Byte>) returns (r: ReadRequest, consumed: nat)
      requires request.Collecting()
      ensures consumed <= |bytes| && r == request.(data := request.data + bytes[..consumed])
      ensures if request.(data := request.data + bytes).Collecting() then r.Collecting() && consumed == |bytes| else r.Ended()
    {
      r, consumed := request, 0;
      while consumed < |bytes|
        invariant 0 <= consumed <= |bytes|
        invariant r == request.(data := request.data + bytes[..consumed])
        invariant r.Collecting()
        decreases |bytes| - consumed
      {
        var byte := bytes[consumed];
        assert (request.data + bytes)[|r.data|] == byte;
        r := r.(data := r.data + [byte]);
        consumed := consumed + 1;
        if IsTermChar(r.options, byte) || |r.data| == r.count {
          break;
        }
      }
      assert consumed == |bytes| ==> r.data == request.data + bytes;
    }

    /** Stores what `OnRead` collected: the rest of the bytes become read-ahead. */
    method Arrived(id: RequestId, r: ReadRequest, bytes: seq<Byte>, consumed: nat)
      requires readQueue != [] && readQueue[0] == id && id in requests
      requires Table(requests, readQueue, Some(id), served, enqueued) && TerminalOk() && inFlight == None
      requires readAhead == []
      requires consumed <= |bytes| && r == requests[id].(data := requests[id].data + bytes[..consumed])
      requires received == Delivered() + requests[id].data + bytes
      modifies this`requests, this`readAhead
      ensures Serving(id) && requests[id] == r && Settled(old(requests), requests)
      ensures readAhead == bytes[consumed..]
    {
      TableSays(requests, readQueue, Some(id), served, enqueued, id);
      TableChanged(requests, readQueue, Some(id), served, enqueued, id, r);
      StillJustified(requests, id, r, terminalStatus, reported);
      Divided(Delivered(), requests[id].data, bytes, consumed);
      KeepAhead(bytes, consumed);
      requests := requests[id := r];
    }

    method KeepAhead(bytes: seq<Byte>, consumed: nat)
      requires consumed <= |bytes|
      modifies this`readAhead
      ensures readAhead == old(readAhead) + bytes[consumed..]
    {
      var index := consumed;
      while index < |bytes|
        invariant consumed <= index <= |bytes|
        invariant readAhead == old(readAhead) + bytes[consumed..index]
      {
        readAhead := readAhead + [bytes[index]];
        index := index + 1;
      }
    }

    /** What `OnRead` does with the collected bytes. */
    method HandleRead(id: RequestId, error: Option<StreamError>)
      requires Serving(id) && (requests[id].Ended() || (requests[id].Collecting() && readAhead == []))
      requires error.Some? ==> MapStreamError(error.value) in reported
      requires !terminalStatus.Failed()
      modifies this`requests, this`readQueue, this`readAhead, this`inFlight, this`served, this`terminalStatus
      ensures Valid() && Settled(old(requests), requests) && old(served) <= served
      ensures error.None? ==> terminalStatus == old(terminalStatus)
      ensures error.Some? && error != Some(OperationAborted) && old(requests)[id].data != [] ==>
              terminalStatus == MapStreamError(error.value)
      ensures id in requests && Concluded(old(requests)[id], error, requests[id], inFlight == Some(id))
    {
      ghost var before;
      if error == Some(OperationAborted) {
        var completed := Look(id);
        if completed {
          before := requests;
          Abandon(id);
          SettledChain(old(requests), before, requests);
          return;
        }
      }
      before := requests;
      Conclude(id, error);
      SettledChain(old(requests), before, requests);
    }

    /** An aborted read whose operation is over gives its bytes back and delivers nothing. */
    method Abandon(id: RequestId)
      requires Serving(id) && requests[id].operation.Some? && requests[id].operation.value.Interrupted()
      modifies this`requests, this`readQueue, this`readAhead, this`inFlight, this`served
      ensures Valid() && Settled(old(requests), requests) && old(served) <= served
      ensures id in requests && requests[id].completion == Some(ReadResult(old(requests)[id].operation.value, []))
    {
      GiveUp(id);
      ghost var before := requests;
      FinishActiveRead(id, requests[id].operation.value);
      SettledChain(old(requests), before, requests);
    }

    /** Whether the active request's operation is over. */
    method Look(id: RequestId) returns (completed: bool)
      requires Serving(id)
      modifies this`requests
      ensures Serving(id) && Settled(old(requests), requests)
      ensures requests[id] == old(requests)[id].(operation := requests[id].operation)
      ensures completed <==> requests[id].operation.Some?
      ensures completed ==> requests[id].operation.value.Interrupted()
    {
      TableIsDeciding(requests, readQueue, Some(id), served, enqueued);
      completed := Completed(id);
      TableChanged(old(requests), readQueue, Some(id), served, enqueued, id, requests[id]);
      StillJustified(old(requests), id, requests[id], terminalStatus, reported);
    }

    /** Puts the bytes of an interrupted active request back. */
    method GiveUp(id: RequestId)
      requires Serving(id) && requests[id].operation.Some?
      modifies this`requests, this`readAhead
      ensures id in requests && requests[id].operation == old(requests)[id].operation && requests[id].operation.Some?
      ensures Finishing(id, requests[id].operation.value) && Settled(old(requests), requests)
      ensures requests[id].data == []
    {
      TableIsDeciding(requests, readQueue, Some(id), served, enqueued);
      Retreat(id);
    }

    /** Completes the read if it has ended or the stream has failed, and reads on otherwise. */
    method Conclude(id: RequestId, error: Option<StreamError>)
      requires Serving(id) && (requests[id].Ended() || (requests[id].Collecting() && readAhead == []))
      requires error.Some? ==> MapStreamError(error.value) in reported
      requires !terminalStatus.Failed()
      modifies this`requests, this`readQueue, this`readAhead, this`inFlight, this`served, this`terminalStatus
      ensures Valid() && Settled(old(requests), requests) && old(served) <= served
      ensures id in requests && Concluded(old(requests)[id], error, requests[id], inFlight == Some(id))
      ensures terminalStatus == if error.Some? && old(requests)[id].data != [] then MapStreamError(error.value)
                                else old(terminalStatus)
    {
      TableSays(requests, readQueue, Some(id), served, enqueued, id);
      var data := requests[id].data;
      if error.Some? && data == [] {
        CompleteActiveRead(id, MapStreamError(error.value));
        return;
      }
      if error.Some? {
        terminalStatus := MapStreamError(error.value);
      }
      ConcludeCollected(id, error.Some?);
    }

    method ConcludeCollected(id: RequestId, failed: bool)
      requires Serving(id) && (requests[id].Ended() || (requests[id].Collecting() && readAhead == []))
      requires failed ==> requests[id].data != []
      requires failed <==> terminalStatus.Failed()
      modifies this`requests, this`readQueue, this`readAhead, this`inFlight, this`served
      ensures Valid() && Settled(old(requests), requests) && old(served) <= served
      ensures id in requests
      ensures var r := old(requests)[id];
              if r.Ended() then
                Outcome(requests[id].completion, SuccessTermChar, r.data) || Outcome(requests[id].completion, SuccessMaxCnt, r.data)
              else if failed then Outcome(requests[id].completion, Success, r.data)
              else requests == old(requests) && inFlight == Some(id)
    {
      var data := requests[id].data;
      if data != [] && IsTermChar(requests[id].options, data[|data| - 1]) {
        CompleteActiveRead(id, SuccessTermChar);
      } else if |data| == requests[id].count {
        CompleteActiveRead(id, SuccessMaxCnt);
      } else if failed {
        CompleteActiveRead(id, Success);
      } else {
        IssueRead(id);
      }
    }

    /** Another thread cancels an operation or lets it time out, between strand steps. */
    method CompleteOperation(id: RequestId, status: Status)
      requires Valid() && id in requests && status.Interrupted()
      modifies this`requests
      ensures Valid() && Settled(old(requests), requests)
    {
      if requests[id].operation.None? {
        var r := requests[id].(operation := Some(status));
        TableSays(requests, readQueue, Active(), served, enqueued, id);
        TableChanged(requests, readQueue, Active(), served, enqueued, id, r);
        StillJustified(requests, id, r, terminalStatus, reported);
        requests := requests[id := r];
      }
    }

    /** `cancel_read`, posted once the operation is complete. An active read is only told to
        stop: its handler still runs. */
    method CancelRead(id: RequestId)
      requires Valid() && id in requests && (requests[id].done || requests[id].operation.Some?)
      modifies this`requests, this`readQueue
      ensures Valid() && Settled(old(requests), requests)
      ensures !old(requests)[id].active ==> requests[id].done && id !in readQueue
      ensures !old(requests)[id].active && !old(requests)[id].done ==>
              requests[id].completion == Some(ReadResult(old(requests)[id].operation.value, []))
    {
      var r := requests[id];
      TableSays(requests, readQueue, Active(), served, enqueued, id);
      if r.done {
        return;
      }
      if r.active {
        return;
      }
      CancelWaiting(id, r.operation.value);
    }

    /** A request that is not active leaves the queue, and its promise is set without data. */
    method CancelWaiting(id: RequestId, status: Status)
      requires Valid() && id in requests && !requests[id].done && Active() != Some(id)
      requires status.Interrupted() && requests[id].operation == Some(status)
      modifies this`requests, this`readQueue
      ensures Valid() && Settled(old(requests), requests)
      ensures id in requests && id !in readQueue
      ensures requests[id].done && requests[id].completion == Some(ReadResult(status, []))
    {
      TableSays(requests, readQueue, Active(), served, enqueued, id);
      ghost var done := requests[id].(done := true, completion := Some(ReadResult(status, [])));
      CancelTable(requests, readQueue, Active(), served, enqueued, id, done);
      StillJustified(requests, id, done, terminalStatus, reported);
      if requests[id].enqueued {
        readQueue := EraseFirst(readQueue, id);
      }
      Fulfill(id, status, []);
    }

    /** `flush` with a discard bit: the read-ahead is thrown away. */
    method DiscardReadAhead()
      requires Valid()
      modifies this`readAhead, this`received
      ensures Valid()
      ensures received == old(received)[..|old(received)| - |old(readAhead)|]
    {
      FlushConserves(requests, readQueue, inFlight, Delivered(), readAhead, received);
      received := received[..|received| - |readAhead|];
      readAhead := [];
    }

    /** Any sequence of inputs: strand steps, outside completions and what the stream delivers. What was
        received is what the inputs brought and the flushes threw away, read by read; requests are
        enqueued and served for good; and promises and operations are settled once. */
    method Run(inputs: seq<Input>) returns (ghost effects: seq<Effect>)
      requires Valid()
      modifies this
      ensures Valid() && Settled(old(requests), requests)
      ensures old(served) <= served && old(enqueued) <= enqueued
      ensures Explains(old(received), inputs, effects, received)
      ensures old(reported) <= reported <= old(reported) + AllReports(inputs)
    {
      effects := [];
      for step := 0 to |inputs|
        invariant Valid() && Settled(old(requests), requests)
        invariant old(served) <= served && old(enqueued) <= enqueued
        invariant Explains(old(received), inputs[..step], effects, received)
        invariant old(reported) <= reported <= old(reported) + AllReports(inputs)
      {
        ghost var before, sofar := requests, received;
        ghost var effect := Step(inputs[step]);
        assert Reports(inputs[step]) <= AllReports(inputs);
        SettledChain(old(requests), before, requests);
        ExplainsMore(old(received), inputs, step, effects, sofar, effect, received);
        effects := effects + [effect];
      }
      assert inputs[..|inputs|] == inputs;
    }

    /** One input. It has its effect if the engine can take it: data arrives for the read that is on the
        stream, and a flush throws the read-ahead away. */
    method Step(input: Input) returns (ghost effect: Effect)
      requires Valid()
      modifies this
      ensures Valid() && Settled(old(requests), requests)
      ensures old(served) <= served && old(enqueued) <= enqueued
      ensures Caused(input, effect) && Happened(old(received), effect, received)
      ensures input.Arrive? && effect == Nothing ==> old(inFlight).None?
      ensures input.Flush? ==> effect == Threw(old(readAhead))
      ensures reported == old(reported) + if effect.Took? then Reports(input) else {}
    {
      effect := Nothing;
      if input.Arrive? {
        if inFlight.Some? {
          OnRead(input.bytes, input.error);
          effect := Took(input.bytes);
        }
      } else if input.Flush? {
        effect := Threw(readAhead);
        DiscardReadAhead();
      } else {
        Call(input);
      }
    }

    /** What callers do, and what ends their operations: no byte comes or goes. */
    method Call(input: Input)
      requires Valid() && !input.Arrive? && !input.Flush?
      modifies this`requests, this`readQueue, this`readAhead, this`inFlight, this`served, this`enqueued
      ensures Valid() && Settled(old(requests), requests)
      ensures old(served) <= served && old(enqueued) <= enqueued
    {
      match input {
        case New(id, count, options) =>
          if id !in requests && count > 0 {
            NewRequest(id, count, options);
          }
        case Enqueue(id) =>
          if id in requests && !requests[id].enqueued {
            EnqueueRead(id);
          }
        case Interrupt(id, status) =>
          if id in requests && status.Interrupted() {
            CompleteOperation(id, status);
          }
        case Cancel(id) =>
          if id in requests && requests[id].operation.Some? {
            CancelRead(id);
          }
      }
    }
  }

  /** What can happen to the engine from outside. */
  datatype Input =
    | New(id: RequestId, count: nat, options: ReadOptions)
    | Enqueue(id: RequestId)
    | Interrupt(id: RequestId, status: Status)
    | Cancel(id: RequestId)
    | Arrive(bytes: seq<Byte>, error: Option<StreamError>)
    | Flush

  /** The error that comes with an input, if one does, and those of all inputs. */
  function Reports(input: Input): set<Status> {
    if input.Arrive? && input.error.Some? then {MapStreamError(input.error.value)} else {}
  }

  function AllReports(inputs: seq<Input>): set<Status> {
    set k, e | 0 <= k < |inputs| && e in Reports(inputs[k]) :: e
  }

  /** What it did to the bytes received. */
  datatype Effect = Nothing | Took(bytes: seq<Byte>) | Threw(bytes: seq<Byte>)

  /** Only arrivals bring bytes, and exactly their own; only flushes throw any away. */
  predicate Caused(input: Input, effect: Effect) {
    match effect
    case Nothing => !input.Flush?
    case Took(bytes) => input.Arrive? && bytes == input.bytes
    case Threw(_) => input.Flush?
  }

  predicate Happened(before: seq<Byte>, effect: Effect, after: seq<Byte>) {
    match effect
    case Nothing => after == before
    case Took(bytes) => after == before + bytes
    case Threw(bytes) => before == after + bytes
  }

  /** Each input had one effect, and these lead from `before` to `after`. */
  ghost predicate Explains(before: seq<Byte>, inputs: seq<Input>, effects: seq<Effect>, after: seq<Byte>) {
    && |effects| == |inputs|
    && if inputs == [] then after == before
       else
         var n := |inputs| - 1;
         && Caused(inputs[n], effects[n])
         && exists middle: seq<Byte> ::
              Explains(before, inputs[..n], effects[..n], middle) && Happened(middle, effects[n], after)
  }

  lemma ExplainsMore(before: seq<Byte>, inputs: seq<Input>, n: nat, effects: seq<Effect>, middle: seq<Byte>,
                     effect: Effect, after: seq<Byte>)
    requires n < |inputs| && Explains(before, inputs[..n], effects, middle)
    requires Caused(inputs[n], effect) && Happened(middle, effect, after)
    ensures Explains(before, inputs[..n + 1], effects + [effect], after)
  {
    var longer, more := inputs[..n + 1], effects + [effect];
    assert longer[..n] == inputs[..n] && more[..n] == effects;
    assert Explains(before, longer[..n], more[..n], middle) && Happened(middle, more[n], after);
  }

  lemma CancelTable(requests: Requests, queue: seq<RequestId>, active: Option<RequestId>, served: seq<RequestId>,
                    enqueued: seq<RequestId>, id: RequestId, r: ReadRequest)
    requires Table(requests, queue, active, served, enqueued)
    requires active == if queue == [] then None else Some(queue[0])
    requires id in requests && !requests[id].done && active != Some(id) && r.enqueued == requests[id].enqueued
    requires r.done && RequestOk(r, false) && SettledOne(requests[id], r) && r.completion.value.data == []
    ensures Table(requests[id := r], EraseFirst(queue, id), active, served, enqueued)
    ensures id !in EraseFirst(queue, id)
    ensures !requests[id].enqueued ==> EraseFirst(queue, id) == queue
    ensures queue != [] ==> EraseFirst(queue, id) == [queue[0]] + EraseFirst(queue[1..], id)
    ensures Settled(requests, requests[id := r])
    ensures HandedOver(requests[id := r], served) == HandedOver(requests, served)
  {
    assert Key(true);
    assert id in queue ==> Waiting(requests, id);
    QueueErased(requests, queue, id, r);
    EraseFirstKeeps(queue, id);
    CancelHistory(requests, queue, served, enqueued, id, r);
  }

  lemma CancelHistory(requests: Requests, queue: seq<RequestId>, served: seq<RequestId>, enqueued: seq<RequestId>,
                      id: RequestId, r: ReadRequest)
    requires HistoryOk(requests, queue, served, enqueued) && id in requests && r.enqueued == requests[id].enqueued
    requires requests[id].completion.None? && r.completion.Some? && r.completion.value.data == []
    requires SettledOne(requests[id], r)
    ensures HistoryOk(requests[id := r], EraseFirst(queue, id), served, enqueued)
    ensures Settled(requests, requests[id := r])
    ensures HandedOver(requests[id := r], served) == HandedOver(requests, served)
  {
    SettledStep(requests, requests, id, r);
    HandedOverKept(requests, requests[id := r], served);
    QueueErasedInOrder(served, queue, id, enqueued);
  }

  function EraseFirst(queue: seq<RequestId>, id: RequestId): (r: seq<RequestId>) {
    if queue == [] then [] else if queue[0] == id then queue[1..] else [queue[0]] + EraseFirst(queue[1..], id)
  }

  lemma {:induction false} EraseFirstKeeps(queue: seq<RequestId>, id: RequestId)
    requires forall i, j :: 0 <= i < j < |queue| ==> queue[i] != queue[j]
    ensures var r := EraseFirst(queue, id);
            && (forall x :: x in r <==> x in queue && x != id)
            && (forall i, j :: 0 <= i < j < |r| ==> r[i] != r[j])
  {
    if queue != [] {
      var rest := queue[1..];
      assert queue == [queue[0]] + rest;
      forall k | 0 <= k < |rest| ensures rest[k] != queue[0] {
        assert queue[k + 1] == rest[k];
      }
      if queue[0] != id {
        EraseFirstKeeps(rest, id);
        var r := EraseFirst(rest, id);
        forall k | 0 <= k < |r| ensures r[k] != queue[0] {
          assert r[k] in rest;
        }
        assert EraseFirst(queue, id) == [queue[0]] + r;
      }
    }
  }

  /** A cancelled request leaves the queue; the others keep their order. */
  lemma QueueErased(requests: Requests, queue: seq<RequestId>, id: RequestId, r: ReadRequest)
    requires QueueOk(requests, queue) && id in requests && r.done
    ensures QueueOk(requests[id := r], EraseFirst(queue, id))
    ensures id !in queue ==> EraseFirst(queue, id) == queue
  {
    EraseFirstKeeps(queue, id);
    var after, rest := requests[id := r], EraseFirst(queue, id);
    forall other | Waiting(after, other) ensures other in rest {
      assert Waiting(requests, other);
    }
    forall i | 0 <= i < |rest| ensures Waiting(after, rest[i]) {
      assert rest[i] in queue && rest[i] != id;
    }
    if id !in queue {
      EraseFirstAbsent(queue, id);
    }
  }

  lemma {:induction false} EraseFirstAbsent(queue: seq<RequestId>, id: RequestId)
    requires id !in queue
    ensures EraseFirst(queue, id) == queue
  {
    if queue != [] {
      EraseFirstAbsent(queue[1..], id);
    }
  }
}
