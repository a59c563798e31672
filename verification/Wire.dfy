/**
 What travels from the adapter to the browser: payloads, envelopes, and how the
 adapter turns one logical event into numbered envelopes.
 */
module Wire {
  import opened Base
  import opened Chunking

  /** A JSON field; anything but text and whole numbers is kept as its own canonical text. */
  datatype Value = Text(text: string) | Number(number: int) | Other(json: string)

  type Payload = map<string, Value>

  /** The fields of an envelope that vary from event to event. */
  datatype Envelope = Envelope(requestId: Option<string>, operation: string, sequence: nat, payload: Payload)

  /** A logical event as the backend yields it. */
  datatype Emit = Emit(operation: string, payload: Payload)

  /** A logical event as the browser's consumers see it. */
  datatype Event = Event(requestId: string, sequence: nat, operation: string, payload: Payload)

  /** JSON and base64, both ends; `parse` includes the envelope validation. */
  datatype Codec = Codec(
    encode: Payload -> Bytes, decode: Bytes -> Option<Payload>,
    base64: Bytes -> string, unbase64: string -> Option<Bytes>,
    show: Envelope -> string, parse: string -> Option<Envelope>)

  /** Both ends agree, and one-line JSON objects start with a brace. */
  ghost predicate Faithful(c: Codec)
  {
    && (forall p :: c.decode(c.encode(p)) == Some(p))
    && (forall b :: c.unbase64(c.base64(b)) == Some(b))
    && (forall e :: c.parse(c.show(e)) == Some(e))
    && (forall e :: c.show(e) != "" && c.show(e)[0] == '{' && '\n' !in c.show(e))
  }

  /** No payload is the content of its own single chunk. */
  ghost predicate NotSelfContained(c: Codec)
  {
    forall p: Payload | ChunkShaped(p) && p["chunkData"].Text? ::
      var bytes := c.unbase64(p["chunkData"].text);
      bytes.Some? ==> c.decode(bytes.value) != Some(p)
  }

  const EVENT_CHUNK_BYTES: nat := 16 * 1024

  const RUNTIME_OPERATIONS: set<string> := {"request.accepted", "output.delta", "request.completed", "error"}

  const CHUNK_KEYS: set<string> := {"chunkData", "chunkIndex", "chunkTotal"}

  /** A payload the browser would take for a piece of a larger one. */
  predicate ChunkShaped(p: Payload) { p.Keys == CHUNK_KEYS }

  // ----------------------------------------------------------------- adapter

  function ChunkFields(c: Codec, chunk: FrameChunk): Payload
  {
    map["chunkData" := Text(c.base64(chunk.data)),
        "chunkIndex" := Number(chunk.index),
        "chunkTotal" := Number(chunk.total)]
  }

  /** The payloads `_append` buffers for one logical payload. */
  function Parts(c: Codec, p: Payload): (parts: seq<Payload>)
    ensures |parts| == |ChunkPayload(c.encode(p), EVENT_CHUNK_BYTES)| > 0
  {
    var chunks := ChunkPayload(c.encode(p), EVENT_CHUNK_BYTES);
    if |chunks| == 1 then [p] else seq(|chunks|, i requires 0 <= i < |chunks| => ChunkFields(c, chunks[i]))
  }

  /** Number payloads of one request from `first` on. */
  function Numbered(request: string, operation: string, parts: seq<Payload>, first: nat): (es: seq<Envelope>)
    ensures |es| == |parts|
    ensures forall i | 0 <= i < |es| :: es[i] == Envelope(Some(request), operation, first + i, parts[i])
  {
    seq(|parts|, i requires 0 <= i < |parts| => Envelope(Some(request), operation, first + i, parts[i]))
  }

  /** The envelopes of one logical event. */
  function Sent(c: Codec, request: string, e: Emit, first: nat): (es: seq<Envelope>)
    ensures |es| == |Parts(c, e.payload)|
  {
    Numbered(request, e.operation, Parts(c, e.payload), first)
  }

  /** How a request turns a logical event into envelopes, given the first free number. */
  type Sender = (Emit, nat) -> seq<Envelope>

  function SenderOf(c: Codec, request: string): Sender
  {
    (e: Emit, first: nat) => Sent(c, request, e, first)
  }

  /** The envelopes of the first `n` events of a request, numbered from 0. */
  function SentUpTo(send: Sender, emits: seq<Emit>, n: nat): seq<Envelope>
    requires n <= |emits|
  {
    if n == 0 then []
    else
      var before := SentUpTo(send, emits, n - 1);
      before + send(emits[n - 1], |before|)
  }

  /** The envelopes of a whole request. */
  function SentAll(send: Sender, emits: seq<Emit>): seq<Envelope>
  {
    SentUpTo(send, emits, |emits|)
  }

  /** What the consumers of that request should see: its events, numbered 0, 1, 2, … */
  function Expected(request: string, emits: seq<Emit>): (events: seq<Event>)
    ensures |events| == |emits|
    ensures forall i | 0 <= i < |emits| :: events[i] == Event(request, i, emits[i].operation, emits[i].payload)
  {
    seq(|emits|, i requires 0 <= i < |emits| => Event(request, i, emits[i].operation, emits[i].payload))
  }

  /** A payload is mistaken for a piece of another only if it is sent whole and shaped like one. */
  predicate Recognisable(c: Codec, p: Payload)
  {
    ChunkShaped(p) ==> |Parts(c, p)| > 1
  }

  /** Only the four runtime operations, and nothing the browser would mistake for a chunk. */
  predicate Plain(c: Codec, emits: seq<Emit>)
  {
    forall i | 0 <= i < |emits| :: emits[i].operation in RUNTIME_OPERATIONS && Recognisable(c, emits[i].payload)
  }

  ghost predicate Contiguous(es: seq<Envelope>, first: nat)
  {
    forall i | 0 <= i < |es| :: es[i].sequence == first + i
  }

  /** The wire carries the request's envelopes with contiguous numbers. */
  lemma {:induction false} NumbersAreContiguous(send: Sender, emits: seq<Emit>, n: nat)
    requires n <= |emits| && forall e, k: nat :: Contiguous(send(e, k), k)
    ensures Contiguous(SentUpTo(send, emits, n), 0)
    decreases n
  {
    if n > 0 {
      NumbersAreContiguous(send, emits, n - 1);
      assert Contiguous(send(emits[n - 1], |SentUpTo(send, emits, n - 1)|), |SentUpTo(send, emits, n - 1)|);
    }
  }
}
