/** Reassembly of a record-marked RPC reply (section 11 of RFC 5531): fragments, each behind a marker
    of four bytes that holds its length and, in the top bit, whether it is the last. */
module RpcRecord {
  import opened Sequences
  import opened Visa

  const LAST := 0x8000_0000

  datatype Fragment = Fragment(bytes: seq<Byte>, last: bool)

  function ReadU32(b: seq<Byte>): nat
    requires |b| >= 4
  {
    b[0] as int * 0x100_0000 + b[1] as int * 0x1_0000 + b[2] as int * 0x100 + b[3] as int
  }

  function WriteU32(n: nat): (b: seq<Byte>)
    requires n < 0x1_0000_0000
    ensures |b| == 4
  {
    [n / 0x100_0000, n / 0x1_0000 % 0x100, n / 0x100 % 0x100, n % 0x100]
  }

  lemma ReadInvertsWrite(n: nat)
    requires n < 0x1_0000_0000
    ensures ReadU32(WriteU32(n)) == n
  {
    var high, low := n / 0x1_0000, n % 0x1_0000;
    assert n / 0x100_0000 == high / 0x100;
    assert n / 0x100 % 0x100 == low / 0x100;
    assert n % 0x100 == low % 0x100;
  }

  lemma WriteInvertsRead(b: seq<Byte>)
    requires |b| == 4
    ensures ReadU32(b) < 0x1_0000_0000 && WriteU32(ReadU32(b)) == b
  {
    var high, low := b[0] as int * 0x100 + b[1] as int, b[2] as int * 0x100 + b[3] as int;
    assert ReadU32(b) == high * 0x1_0000 + low;
    assert ReadU32(b) / 0x1_0000 == high;
    assert ReadU32(b) / 0x100_0000 == high / 0x100;
    assert ReadU32(b) / 0x100 == high * 0x100 + b[2] as int;
  }

  predicate Sendable(f: Fragment) {
    |f.bytes| < LAST
  }

  function Marker(f: Fragment): seq<Byte>
    requires Sendable(f)
  {
    WriteU32(|f.bytes| + if f.last then LAST else 0)
  }

  /** Fragments of one record: only the last of them is marked so. */
  predicate IsRecord(fs: seq<Fragment>) {
    && fs != []
    && (forall k :: 0 <= k < |fs| ==> Sendable(fs[k]))
    && (forall k :: 0 <= k < |fs| ==> (fs[k].last <==> k == |fs| - 1))
  }

  function Wire(fs: seq<Fragment>): seq<Byte>
    requires forall k :: 0 <= k < |fs| ==> Sendable(fs[k])
  {
    if fs == [] then [] else Marker(fs[0]) + fs[0].bytes + Wire(fs[1..])
  }

  function Contents(fs: seq<Fragment>): seq<Byte> {
    if fs == [] then [] else fs[0].bytes + Contents(fs[1..])
  }

  /** What becomes of a reply: it is complete before `rest` of the stream, it is refused as too long,
      or the stream ends first. */
  datatype Outcome = Complete(response: seq<Byte>, rest: seq<Byte>) | TooLong | Lost

  /** The reply in `stream`, behind what was assembled before. */
  function Assembled(stream: seq<Byte>, response: seq<Byte>, maximum: nat): Outcome
    decreases |stream|
  {
    if |stream| < 4 then Lost
    else
      var marker := ReadU32(stream[..4]);
      var size := marker % LAST;
      if |response| + size > maximum then TooLong
      else if |stream| < 4 + size then Lost
      else if marker >= LAST then Complete(response + stream[4..4 + size], stream[4 + size..])
      else Assembled(stream[4 + size..], response + stream[4..4 + size], maximum)
  }

  lemma MarkerRead(f: Fragment, marker: nat)
    requires Sendable(f) && marker == ReadU32(Marker(f))
    ensures marker % LAST == |f.bytes| && (marker >= LAST <==> f.last)
  {
    ReadInvertsWrite(|f.bytes| + if f.last then LAST else 0);
  }

  /** One fragment at the head of the stream. */
  lemma FragmentAssembled(f: Fragment, stream: seq<Byte>, response: seq<Byte>, maximum: nat)
    requires Sendable(f)
    ensures Assembled(Marker(f) + f.bytes + stream, response, maximum)
            == if |response| + |f.bytes| > maximum then TooLong
               else if f.last then Complete(response + f.bytes, stream)
               else Assembled(stream, response + f.bytes, maximum)
  {
    var whole := Marker(f) + f.bytes + stream;
    assert whole[..4] == Marker(f);
    assert whole[4..4 + |f.bytes|] == f.bytes && whole[4 + |f.bytes|..] == stream;
    MarkerRead(f, ReadU32(whole[..4]));
  }

  lemma WireCons(fs: seq<Fragment>, rest: seq<Byte>)
    requires fs != [] && forall k :: 0 <= k < |fs| ==> Sendable(fs[k])
    ensures Wire(fs) + rest == Marker(fs[0]) + fs[0].bytes + (Wire(fs[1..]) + rest)
  {
    Regroup(Marker(fs[0]) + fs[0].bytes, Wire(fs[1..]), rest);
  }

  /** However a record is cut into fragments, empty ones included, it is put together exactly, and
      refused exactly when it is longer than the maximum; what follows it is not touched. */
  lemma {:induction false} RecordExact(fs: seq<Fragment>, rest: seq<Byte>, response: seq<Byte>, maximum: nat)
    requires IsRecord(fs) && |response| <= maximum
    ensures Assembled(Wire(fs) + rest, response, maximum)
            == if |response + Contents(fs)| <= maximum then Complete(response + Contents(fs), rest) else TooLong
    decreases |fs|
  {
    var f, tail := fs[0], fs[1..];
    WireCons(fs, rest);
    FragmentAssembled(f, Wire(tail) + rest, response, maximum);
    Regroup(response, f.bytes, Contents(tail));
    if |response| + |f.bytes| <= maximum {
      if |fs| == 1 {
        assert Wire(tail) + rest == rest;
        assert f.bytes + Contents(tail) == f.bytes;
      } else {
        assert forall k :: 0 <= k < |tail| ==> tail[k] == fs[k + 1];
        RecordExact(tail, rest, response + f.bytes, maximum);
      }
    }
  }

  /** The head of an accepted stream is a fragment. */
  lemma FragmentRead(stream: seq<Byte>) returns (f: Fragment)
    requires |stream| >= 4 && |stream| >= 4 + ReadU32(stream[..4]) % LAST
    ensures Sendable(f) && 4 + |f.bytes| <= |stream|
    ensures stream == Marker(f) + f.bytes + stream[4 + |f.bytes|..]
  {
    var head := stream[..4];
    var marker := ReadU32(head);
    WriteInvertsRead(head);
    MarkerSplit(marker);
    var size := marker % LAST;
    f := Fragment(stream[4..4 + size], marker >= LAST);
    assert Marker(f) == head;
  }

  lemma MarkerSplit(marker: nat)
    requires marker < 0x1_0000_0000
    ensures marker == marker % LAST + if marker >= LAST then LAST else 0
  {
  }

  lemma RecordCons(f: Fragment, tail: seq<Fragment>, rest: seq<Byte>)
    requires Sendable(f) && !f.last && IsRecord(tail)
    ensures IsRecord([f] + tail) && Contents([f] + tail) == f.bytes + Contents(tail)
    ensures Wire([f] + tail) + rest == Marker(f) + f.bytes + (Wire(tail) + rest)
  {
    var fs := [f] + tail;
    assert fs[1..] == tail;
    WireCons(fs, rest);
  }

  lemma OneFragment(f: Fragment)
    requires Sendable(f) && f.last
    ensures IsRecord([f]) && Wire([f]) == Marker(f) + f.bytes && Contents([f]) == f.bytes
  {
    var none: seq<Fragment> := [];
    assert [f][1..] == none && Wire(none) == [] && Contents(none) == [];
    assert Marker(f) + f.bytes + [] == Marker(f) + f.bytes && f.bytes + [] == f.bytes;
  }

  /** Whatever is accepted was a record, no longer than the maximum: nothing is invented. */
  lemma {:induction false} AcceptedIsRecord(stream: seq<Byte>, response: seq<Byte>, maximum: nat)
    returns (fs: seq<Fragment>)
    requires Assembled(stream, response, maximum).Complete?
    ensures IsRecord(fs)
    ensures var outcome := Assembled(stream, response, maximum);
            stream == Wire(fs) + outcome.rest && outcome.response == response + Contents(fs) && |outcome.response| <= maximum
    decreases |stream|
  {
    var f := FragmentRead(stream);
    var rest := stream[4 + |f.bytes|..];
    FragmentAssembled(f, rest, response, maximum);
    if f.last {
      fs := [f];
      OneFragment(f);
    } else {
      var tail := AcceptedIsRecord(rest, response + f.bytes, maximum);
      fs := [f] + tail;
      RecordCons(f, tail, Assembled(stream, response, maximum).rest);
      Regroup(response, f.bytes, Contents(tail));
    }
  }

  /** One reply on its way in. */
  class Request {
    const maximumFrameSize: nat
    var response: seq<Byte>
    var fragment: seq<Byte>

    constructor (maximumFrameSize: nat)
      ensures Valid() && this.maximumFrameSize == maximumFrameSize && response == [] && fragment == []
    {
      this.maximumFrameSize := maximumFrameSize;
      response, fragment := [], [];
    }

    /** It never holds more than the maximum, the buffer for the current fragment included. */
    ghost predicate Valid()
      reads this
    {
      |response| + |fragment| <= maximumFrameSize
    }

    /** `read_rpc_marker` and `read_rpc_fragment` in turn, against a stream that may end anywhere. */
    method ReadRecord(stream: seq<Byte>) returns (outcome: Outcome)
      requires Valid() && response == [] && fragment == []
      modifies this
      ensures Valid()
      ensures outcome == Assembled(stream, [], maximumFrameSize)
      ensures outcome.Complete? ==> response == outcome.response
    {
      var rest := stream;
      while true
        invariant Valid() && fragment == []
        invariant Assembled(stream, [], maximumFrameSize) == Assembled(rest, response, maximumFrameSize)
        decreases |rest|
      {
        if |rest| < 4 {
          return Lost;
        }
        var marker := ReadU32(rest[..4]);
        var size := marker % LAST;
        if size > maximumFrameSize || |response| > maximumFrameSize - size {
          return TooLong;
        }
        fragment := seq(size, i => 0);
        if fragment != [] {
          if |rest| < 4 + size {
            return Lost;
          }
          fragment := rest[4..4 + size];
          response, fragment := response + fragment, [];
        } else {
          assert rest[4..4 + size] == [] && response + [] == response;
        }
        rest := rest[4 + size..];
        if marker >= LAST {
          return Complete(response, rest);
        }
      }
    }
  }
}
