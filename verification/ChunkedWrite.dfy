/** How a write is cut into chunks no longer than the peer accepts. */
module ChunkedWrite {
  import opened Visa

  datatype Chunk = Chunk(bytes: seq<Byte>, end: bool)

  function Payload(chunks: seq<Chunk>): seq<Byte> {
    if chunks == [] then [] else Payload(chunks[..|chunks| - 1]) + chunks[|chunks| - 1].bytes
  }

  /** The first `n` bytes of `data`, in full chunks but for the last, with the end mark only on the
      chunk that completes the data, and only if one was asked for. */
  ghost predicate Cut(chunks: seq<Chunk>, data: seq<Byte>, n: nat, maximum: nat, sendEnd: bool) {
    && n <= |data| && Payload(chunks) == data[..n]
    && (forall k :: 0 <= k < |chunks| ==> 0 < |chunks[k].bytes| <= maximum)
    && (forall k :: 0 <= k < |chunks| && (k < |chunks| - 1 || n < |data|) ==> |chunks[k].bytes| == maximum)
    && (forall k :: 0 <= k < |chunks| ==> (chunks[k].end <==> sendEnd && k == |chunks| - 1 && n == |data|))
  }

  function NextAmount(data: seq<Byte>, n: nat, maximum: nat): (amount: nat)
    requires n < |data| && maximum > 0
    ensures 0 < amount <= maximum && n + amount <= |data|
  {
    if |data| - n < maximum then |data| - n else maximum
  }

  function NextChunk(data: seq<Byte>, n: nat, maximum: nat, sendEnd: bool): Chunk
    requires n < |data| && maximum > 0
  {
    var amount := NextAmount(data, n, maximum);
    Chunk(data[n..n + amount], sendEnd && n + amount == |data|)
  }

  lemma CutNothing(data: seq<Byte>, maximum: nat, sendEnd: bool)
    ensures Cut([], data, 0, maximum, sendEnd)
  {
  }

  lemma CutExtends(chunks: seq<Chunk>, data: seq<Byte>, n: nat, maximum: nat, sendEnd: bool)
    requires Cut(chunks, data, n, maximum, sendEnd) && n < |data| && maximum > 0
    ensures Cut(chunks + [NextChunk(data, n, maximum, sendEnd)], data, n + NextAmount(data, n, maximum), maximum, sendEnd)
  {
    var chunk := NextChunk(data, n, maximum, sendEnd);
    var longer := chunks + [chunk];
    assert longer[..|longer| - 1] == chunks;
    assert data[..n] + chunk.bytes == data[..n + NextAmount(data, n, maximum)];
  }

  /** After the chunks of `before`, the first `n` bytes of the buffer have gone out, cut as they should be. */
  ghost predicate Sent(before: seq<Chunk>, after: seq<Chunk>, buffer: seq<Byte>, n: nat, maximum: nat, sendEnd: bool) {
    before <= after && Cut(after[|before|..], buffer, n, maximum, sendEnd)
  }

  /** Some part of it has. */
  ghost predicate SentPart(before: seq<Chunk>, after: seq<Chunk>, buffer: seq<Byte>, maximum: nat, sendEnd: bool) {
    exists n: nat :: Sent(before, after, buffer, n, maximum, sendEnd)
  }

  lemma SentNothing(link: seq<Chunk>, buffer: seq<Byte>, maximum: nat, sendEnd: bool)
    ensures Sent(link, link, buffer, 0, maximum, sendEnd) && SentPart(link, link, buffer, maximum, sendEnd)
  {
    CutNothing(buffer, maximum, sendEnd);
    var none := 0;
    assert link[|link|..] == [];
    assert Sent(link, link, buffer, none, maximum, sendEnd);
  }

  /** One more chunk. */
  lemma SentMore(before: seq<Chunk>, link: seq<Chunk>, buffer: seq<Byte>, n: nat, maximum: nat, sendEnd: bool)
    requires Sent(before, link, buffer, n, maximum, sendEnd) && n < |buffer| && maximum > 0
    ensures var after := link + [NextChunk(buffer, n, maximum, sendEnd)];
            Sent(before, after, buffer, n + NextAmount(buffer, n, maximum), maximum, sendEnd)
  {
    CutExtends(link[|before|..], buffer, n, maximum, sendEnd);
    var chunk := NextChunk(buffer, n, maximum, sendEnd);
    assert (link + [chunk])[|before|..] == link[|before|..] + [chunk];
  }
}
