/**
 From the adapter's logical events to the browser's: split, numbered, printed,
 cut into fragments anywhere, parsed, reassembled and numbered again.
 */
module StreamRoundTrip {
  import opened Base
  import opened Wire
  import opened EventStream
  import opened Sse
  import Utf8
  import opened LiveStream

  ghost predicate AllRuntime(es: seq<Envelope>)
  {
    forall i | 0 <= i < |es| :: es[i].operation in RUNTIME_OPERATIONS
  }

  lemma {:induction false} SentIsRuntime(c: Codec, request: string, emits: seq<Emit>, n: nat)
    requires n <= |emits| && Plain(c, emits)
    ensures AllRuntime(SentUpTo(SenderOf(c, request), emits, n))
    ensures forall i | 0 <= i < |SentUpTo(SenderOf(c, request), emits, n)| ::
              SentUpTo(SenderOf(c, request), emits, n)[i].requestId == Some(request)
    decreases n
  {
    if n > 0 { SentIsRuntime(c, request, emits, n - 1); }
  }

  lemma {:induction false} InItsLane(es: seq<Envelope>, i: nat, n: nat)
    requires i < n <= |es|
    ensures es[i] in Project(es, Key(es[i]), n)
    decreases n
  {
    if i < n - 1 { InItsLane(es, i, n - 1); }
  }

  lemma RuntimeOperationsAreOneLine(operation: string)
    requires operation in RUNTIME_OPERATIONS
    ensures '\n' !in operation
  {
  }

  /** These envelopes are an interleaving of the requests' own envelopes. */
  ghost predicate Interleaves(c: Codec, es: seq<Envelope>, emits: map<string, seq<Emit>>)
  {
    forall key :: Project(es, key, |es|) == if key in emits then SentAll(SenderOf(c, key), emits[key]) else []
  }

  lemma InterleavingIsOneLine(c: Codec, es: seq<Envelope>, emits: map<string, seq<Emit>>)
    requires Interleaves(c, es, emits) && forall key | key in emits :: Plain(c, emits[key])
    ensures OneLine(es)
  {
    forall i | 0 <= i < |es|
      ensures '\n' !in es[i].operation
    {
      var key := Key(es[i]);
      InItsLane(es, i, |es|);
      SentIsRuntime(c, key, emits[key], |emits[key]|);
      RuntimeOperationsAreOneLine(es[i].operation);
    }
  }

  /**
   The stream round trip: any fragmentation of the bytes printed for any interleaving of
   plain requests gives back each request's events, numbered 0, 1, 2, …, and nothing else.
   */
  method Receive(stream: RuntimeEventStream, fragments: seq<Utf8.Octets>, ghost es: seq<Envelope>,
                 ghost emits: map<string, seq<Emit>>)
      returns (r: Option<seq<Event>>)
    requires stream.Valid() && Faithful(stream.codec) && forall key :: stream.LaneOf(key) == IDLE
    requires Utf8.Joined(fragments) == Utf8.Encode(TextOf(stream.codec, es))
    requires Interleaves(stream.codec, es, emits) && forall key | key in emits :: Plain(stream.codec, emits[key])
    modifies stream, stream.assembler
    ensures r.Some?
    ensures forall key :: Mine(r.value, key) == if key in emits then Expected(key, emits[key]) else []
  {
    InterleavingIsOneLine(stream.codec, es, emits);
    PrintedParses(stream.codec, es);
    PrintedBytes(stream.codec, es);
    var parsed := ParseSse(stream.codec, fragments);
    r := stream.AcceptInterleaved(parsed.envelopes, emits);
  }

  lemma {:induction false} LoneProject(es: seq<Envelope>, request: string, key: string, n: nat)
    requires n <= |es| && forall i | 0 <= i < |es| :: es[i].requestId == Some(request)
    ensures Project(es, key, n) == if key == request then es[..n] else []
    decreases n
  {
    if n > 0 { LoneProject(es, request, key, n - 1); }
  }

  /**
   What a live response shows reaches the browser: as long as every event fits the buffer,
   the text written for one attempt is the text of a stream `Receive` undoes.
   */
  lemma LiveResponseInterleaves(c: Codec, request: string, max: nat, emits: seq<Emit>)
    requires Plain(c, emits) && Fits(SenderOf(c, request), max, emits, |emits|)
    ensures Interleaves(c, Written(SenderOf(c, request), max, emits, |emits|), map[request := emits])
  {
    var send := SenderOf(c, request);
    SenderNumbersWell(c, request);
    FittingIsAll(send, max, emits, |emits|);
    SentIsRuntime(c, request, emits, |emits|);
    var es := SentAll(send, emits);
    forall key
      ensures Project(es, key, |es|) == if key == request then es else []
    {
      LoneProject(es, request, key, |es|);
      assert es[..|es|] == es;
    }
  }
}
