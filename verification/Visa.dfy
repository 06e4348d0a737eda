/** Status codes and options shared by every session. */
module Visa {

  type Byte = b: int | 0 <= b < 256

  datatype Option<+T> = None | Some(value: T)

  datatype Status =
    | Success
    | SuccessTermChar
    | SuccessMaxCnt
    | SuccessNestedShared
    | SuccessNestedExclusive
    | ErrorAbort
    | ErrorTmo
    | ErrorIo
    | ErrorConnLost
    | ErrorNPermission
    | ErrorInvParameter
    | ErrorInvSize
    | ErrorInvMask
    | ErrorInvLockType
    | ErrorInvAccessKey
    | ErrorNsupOper
    | ErrorRsrcLocked
    | ErrorSesnNLocked
    | ErrorInvObject
    | ErrorSystemError
  {
    /** `status < VI_SUCCESS`. */
    predicate Failed() {
      !(Success? || SuccessTermChar? || SuccessMaxCnt? || SuccessNestedShared? || SuccessNestedExclusive?)
    }

    /** What a cancellation or a timeout completes an operation with. */
    predicate Interrupted() {
      ErrorAbort? || ErrorTmo?
    }
  }

  datatype ReadOptions = ReadOptions(termcharEnabled: bool, termchar: Byte)

  predicate IsTermChar(options: ReadOptions, b: Byte) {
    options.termcharEnabled && b == options.termchar
  }

  /** None of `data` is the enabled termination character. */
  predicate NoTermChar(options: ReadOptions, data: seq<Byte>) {
    forall k :: 0 <= k < |data| ==> !IsTermChar(options, data[k])
  }

  /** `data` ends at the first enabled termination character. */
  predicate EndsAtTermChar(options: ReadOptions, data: seq<Byte>) {
    data != [] && IsTermChar(options, data[|data| - 1]) && NoTermChar(options, data[..|data| - 1])
  }

  /** Data ends at its only termination character if it was found, and has none otherwise. */
  predicate EndsAsSaid(options: ReadOptions, data: seq<Byte>, found: bool) {
    if found then EndsAtTermChar(options, data) else NoTermChar(options, data)
  }

  /** A read of `count` bytes that holds `data` needs no more: it is full, or has found its termination
      character. */
  function EnoughFor(options: ReadOptions, count: nat): seq<Byte> -> bool {
    (data: seq<Byte>) => |data| >= count || !NoTermChar(options, data)
  }

  /** `Operation::try_complete` against a racing cancel or timeout. */
  method TryComplete(proposed: Status) returns (status: Status)
    ensures status == proposed || status.Interrupted()
  {
    if {
      case true => status := proposed;
      case true => status := ErrorAbort;
      case true => status := ErrorTmo;
    }
  }
}
