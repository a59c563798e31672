/**
 Cutting bytes into pieces of bounded size, shared by checkpoints and the event
 stream, and the numbered frame chunks of the stream protocol.
 */
module Chunking {
  import opened Base

  type Bytes = seq<bv8>

  /** Cut into pieces of `size` bytes; empty content is one empty piece. */
  function Pieces(content: Bytes, size: nat): (pieces: seq<Bytes>)
    requires size > 0
    ensures pieces != []
    decreases |content|
  {
    if |content| <= size then [content] else [content[..size]] + Pieces(content[size..], size)
  }

  function Concat(pieces: seq<Bytes>): Bytes
  {
    if pieces == [] then [] else pieces[0] + Concat(pieces[1..])
  }

  lemma {:induction false} ConcatPieces(content: Bytes, size: nat)
    requires size > 0
    ensures Concat(Pieces(content, size)) == content
    decreases |content|
  {
    if |content| > size {
      ConcatPieces(content[size..], size);
    } else {
      assert Pieces(content, size)[1..] == [];
    }
  }

  lemma {:induction false} ConcatSnoc(pieces: seq<Bytes>, last: Bytes)
    ensures Concat(pieces + [last]) == Concat(pieces) + last
    decreases |pieces|
  {
    if pieces != [] {
      ConcatSnoc(pieces[1..], last);
      assert (pieces + [last])[1..] == pieces[1..] + [last];
    }
  }

  // ------------------------------------------------------------ frame chunks

  datatype FrameChunk = FrameChunk(index: nat, total: nat, data: Bytes)

  /** `chunk_payload`: number the pieces. */
  function ChunkPayload(payload: Bytes, limit: nat): (chunks: seq<FrameChunk>)
    requires limit > 0
    ensures |chunks| == |Pieces(payload, limit)| > 0
    ensures forall i | 0 <= i < |chunks| :: chunks[i] == FrameChunk(i, |chunks|, Pieces(payload, limit)[i])
  {
    var parts := Pieces(payload, limit);
    seq(|parts|, i requires 0 <= i < |parts| => FrameChunk(i, |parts|, parts[i]))
  }

  function Least(a: nat, b: nat): nat { if a < b then a else b }

  /** The number of pieces is the browser's `max(1, ceil(bytes / limit))`. */
  lemma {:induction false} PieceCount(payload: Bytes, limit: nat)
    requires limit > 0
    ensures payload == [] ==> |Pieces(payload, limit)| == 1
    ensures payload != [] ==>
              (|Pieces(payload, limit)| - 1) * limit < |payload| <= |Pieces(payload, limit)| * limit
    decreases |payload|
  {
    if |payload| > limit {
      PieceCount(payload[limit..], limit);
      var n := |Pieces(payload[limit..], limit)|;
      assert (n - 1) * limit + limit == n * limit && n * limit + limit == (n + 1) * limit;
    }
  }

  /** The browser cuts by index arithmetic and gets the same pieces the adapter cuts by walking. */
  lemma {:induction false} PieceAt(payload: Bytes, limit: nat, i: nat)
    requires limit > 0 && i < |Pieces(payload, limit)|
    ensures i * limit <= |payload|
    ensures Pieces(payload, limit)[i] == payload[i * limit..Least((i + 1) * limit, |payload|)]
    decreases i
  {
    if |payload| <= limit {
      assert i == 0;
    } else if i > 0 {
      PieceAt(payload[limit..], limit, i - 1);
      assert (i - 1) * limit + limit == i * limit && i * limit + limit == (i + 1) * limit;
    }
  }

  function DataOf(chunks: seq<FrameChunk>): (data: seq<Bytes>)
    ensures |data| == |chunks| && forall i | 0 <= i < |chunks| :: data[i] == chunks[i].data
  {
    seq(|chunks|, i requires 0 <= i < |chunks| => chunks[i].data)
  }

  /** A complete group: every chunk in its place and agreeing on the total. */
  predicate CompleteGroup(chunks: seq<FrameChunk>)
  {
    chunks != [] && forall i | 0 <= i < |chunks| :: chunks[i].index == i && chunks[i].total == |chunks|
  }

  /** A group is complete exactly if it is nonempty and its chunks are numbered through, each with the right total. */
  lemma CompleteGroupIff(chunks: seq<FrameChunk>)
    ensures CompleteGroup(chunks)
            <==> chunks != [] && forall i | 0 <= i < |chunks| :: chunks[i] == FrameChunk(i, |chunks|, chunks[i].data)
  {
  }

  function ByteCount(pieces: seq<Bytes>): (n: nat)
    ensures n == |Concat(pieces)|
  {
    if pieces == [] then 0 else |pieces[0]| + ByteCount(pieces[1..])
  }

  /** `reassembleChunks`: accepts exactly complete groups and copies their data end to end. */
  method ReassembleChunks(chunks: seq<FrameChunk>) returns (r: Result<Bytes, string>)
    ensures r.Ok? <==> CompleteGroup(chunks)
    ensures r.Ok? ==> r.value == Concat(DataOf(chunks))
  {
    if chunks == [] {
      return Err("At least one frame chunk is required.");
    }
    if exists i | 0 <= i < |chunks| :: chunks[i].total != |chunks| || chunks[i].index != i {
      return Err("Frame chunks are incomplete or out of order.");
    }
    var data := DataOf(chunks);
    var result := new bv8[ByteCount(data)];
    var offset := 0;
    for k := 0 to |chunks|
      invariant offset == |Concat(data[..k])| && offset + |Concat(data[k..])| == result.Length
      invariant result[..offset] == Concat(data[..k])
    {
      var part := data[k];
      assert data[k..][0] == part && data[k..][1..] == data[k + 1..];
      assert data[..k + 1] == data[..k] + [part];
      ConcatSnoc(data[..k], part);
      Copy(result, offset, part);
      offset := offset + |part|;
    }
    assert data[..|chunks|] == data;
    r := Ok(result[..]);
  }

  method Copy(into: array<bv8>, offset: nat, part: Bytes)
    requires offset + |part| <= into.Length
    modifies into
    ensures into[..offset + |part|] == old(into[..offset]) + part
  {
    for i := 0 to |part|
      invariant into[..offset + i] == old(into[..offset]) + part[..i]
    {
      into[offset + i] := part[i];
    }
    assert part[..|part|] == part;
  }

  /** Cutting and reassembling is the identity for every payload and every limit. */
  lemma ChunksReassemble(payload: Bytes, limit: nat)
    requires limit > 0
    ensures CompleteGroup(ChunkPayload(payload, limit))
    ensures Concat(DataOf(ChunkPayload(payload, limit))) == payload
  {
    assert DataOf(ChunkPayload(payload, limit)) == Pieces(payload, limit);
    ConcatPieces(payload, limit);
  }
}
