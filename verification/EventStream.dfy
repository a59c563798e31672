/**
 The browser's `RuntimeEventStream`: wire numbers, reassembly of chunked payloads
 and logical numbers, all kept per request, so that requests may interleave.
 */
module EventStream {
  import opened Base
  import opened Chunking
  import opened Wire

  /** What the stream knows about one request. */
  datatype Lane = Lane(wire: nat, logical: nat, pending: seq<FrameChunk>)

  const IDLE := Lane(0, 0, [])

  /** What one envelope leads to: nothing yet, an envelope to pass on, or a logical event. */
  datatype Item = Collecting | Passed(envelope: Envelope) | Seen(event: Event)

  datatype Outcome = Outcome(lane: Lane, item: Result<Item, string>)

  /** Which lane an envelope belongs to. */
  function Key(e: Envelope): string { if e.requestId.Some? then e.requestId.value else "" }

  predicate Counted(e: Envelope) { e.requestId.Some? && e.operation in RUNTIME_OPERATIONS }

  /** `frameChunkOf`. */
  function FrameChunkOf(c: Codec, p: Payload): Result<Option<FrameChunk>, string>
  {
    if !ChunkShaped(p) then Ok(None)
    else
      var data, index, total := p["chunkData"], p["chunkIndex"], p["chunkTotal"];
      if !data.Text? || !index.Number? || !total.Number?
         || total.number < 1 || index.number < 0 || index.number >= total.number
      then Err("Frame chunk metadata is invalid.")
      else
        var bytes := c.unbase64(data.text);
        if bytes.None? then Err("Frame chunk data is not base64.")
        else Ok(Some(FrameChunk(index.number, total.number, bytes.value)))
  }

  datatype Assembled = Assembled(pending: seq<FrameChunk>, payload: Result<Option<Payload>, string>)

  /** `ChunkedEnvelopeAssembler.accept`, on the pending chunks of the envelope's own request. */
  function Assemble(c: Codec, pending: seq<FrameChunk>, p: Payload): Assembled
  {
    var chunk := FrameChunkOf(c, p);
    if chunk.Err? then Assembled(pending, Err(chunk.error))
    else if chunk.value.None? then
      if pending != [] then Assembled([], Err("Frame chunks are incomplete or out of order."))
      else Assembled([], Ok(Some(p)))
    else
      var piece := chunk.value.value;
      if piece.index != |pending| || (pending != [] && piece.total != pending[0].total) then
        Assembled([], Err("Frame chunks are incomplete or out of order."))
      else
        var chunks := pending + [piece];
        if |chunks| < piece.total then Assembled(chunks, Ok(None))
        else if !CompleteGroup(chunks) then Assembled([], Err("Frame chunks are incomplete or out of order."))
        else
          var whole := c.decode(Concat(DataOf(chunks)));
          if whole.None? then Assembled([], Err("The reassembled payload is not valid JSON."))
          else Assembled([], Ok(Some(whole.value)))
  }

  /** An envelope whose wire number has been taken: assemble it, and number a finished event. */
  function Place(c: Codec, lane: Lane, e: Envelope): Outcome
  {
    var a := Assemble(c, lane.pending, e.payload);
    var placed := lane.(pending := a.pending);
    if a.payload.Err? then Outcome(placed, Err(a.payload.error))
    else if a.payload.value.None? then Outcome(placed, Ok(Collecting))
    else if !Counted(e) then Outcome(placed, Ok(Passed(e.(payload := a.payload.value.value))))
    else
      Outcome(placed.(logical := lane.logical + 1),
              Ok(Seen(Event(e.requestId.value, lane.logical, e.operation, a.payload.value.value))))
  }

  /** `RuntimeEventStream.accept`, on the lane of the envelope's own request. */
  function Step(c: Codec, lane: Lane, e: Envelope): Outcome
  {
    if Counted(e) && e.sequence != lane.wire then
      Outcome(lane, Err("The runtime response events are incomplete or out of order."))
    else Place(c, if Counted(e) then lane.(wire := lane.wire + 1) else lane, e)
  }

  /** Envelopes without a request, or of another operation, pass through unnumbered. */
  lemma OthersPass(c: Codec, lane: Lane, e: Envelope)
    requires e.requestId == None || e.operation !in {"request.accepted", "output.delta", "request.completed", "error"}
    requires lane.pending == [] && e.payload.Keys != {"chunkData", "chunkIndex", "chunkTotal"}
    ensures Step(c, lane, e) == Outcome(lane, Ok(Passed(e)))
  {
    assert !Counted(e) && !ChunkShaped(e.payload);
  }

  /** What one envelope does to its lane. */
  type Stepper = (Lane, Envelope) -> Outcome

  function StepperOf(c: Codec): Stepper
  {
    (lane: Lane, e: Envelope) => Step(c, lane, e)
  }

  /** A lane and the logical events it has shown; None once an envelope was refused. */
  type Progress = Option<(Lane, seq<Event>)>

  function Advance(step: Stepper, at: Progress, e: Envelope): Progress
  {
    if at.None? then None
    else
      var o := step(at.value.0, e);
      if o.item.Err? then None
      else Some((o.lane, if o.item.value.Seen? then at.value.1 + [o.item.value.event] else at.value.1))
  }

  /** One lane after the first `n` of its envelopes. */
  function Feed(step: Stepper, at: Progress, es: seq<Envelope>, n: nat): Progress
    requires n <= |es|
  {
    if n == 0 then at else Advance(step, Feed(step, at, es, n - 1), es[n - 1])
  }

  function FeedAll(step: Stepper, at: Progress, es: seq<Envelope>): Progress
  {
    Feed(step, at, es, |es|)
  }

  // ------------------------------------------------------------ one request

  lemma {:induction false} FeedAgrees(step: Stepper, at: Progress, es: seq<Envelope>, fs: seq<Envelope>, n: nat)
    requires n <= |es| && n <= |fs| && forall i | 0 <= i < n :: es[i] == fs[i]
    ensures Feed(step, at, es, n) == Feed(step, at, fs, n)
    decreases n
  {
    if n > 0 { FeedAgrees(step, at, es, fs, n - 1); }
  }

  lemma {:induction false} FeedFrom(step: Stepper, at: Progress, a: seq<Envelope>, b: seq<Envelope>, n: nat)
    requires n <= |b|
    ensures Feed(step, at, a + b, |a| + n) == Feed(step, FeedAll(step, at, a), b, n)
    decreases n
  {
    if n == 0 {
      FeedAgrees(step, at, a + b, a, |a|);
    } else {
      FeedFrom(step, at, a, b, n - 1);
    }
  }

  lemma FeedAppend(step: Stepper, at: Progress, a: seq<Envelope>, b: seq<Envelope>)
    ensures FeedAll(step, at, a + b) == FeedAll(step, FeedAll(step, at, a), b)
  {
    FeedFrom(step, at, a, b, |b|);
  }

  /** A chunk the adapter sent is read back as that chunk. */
  lemma ChunkFieldsRead(c: Codec, chunk: FrameChunk)
    requires Faithful(c) && chunk.index < chunk.total
    ensures FrameChunkOf(c, ChunkFields(c, chunk)) == Ok(Some(chunk))
  {
    assert ChunkFields(c, chunk).Keys == CHUNK_KEYS;
  }

  /** Every chunk but the last waits. */
  lemma ChunkWaits(c: Codec, lane: Lane, request: string, operation: string, chunks: seq<FrameChunk>, k: nat)
    requires Faithful(c) && operation in RUNTIME_OPERATIONS && CompleteGroup(chunks) && k < |chunks| - 1
    requires lane.pending == chunks[..k]
    ensures Step(c, lane, Envelope(Some(request), operation, lane.wire, ChunkFields(c, chunks[k])))
            == Outcome(Lane(lane.wire + 1, lane.logical, chunks[..k + 1]), Ok(Collecting))
  {
    ChunkFieldsRead(c, chunks[k]);
    assert chunks[..k + 1] == chunks[..k] + [chunks[k]];
  }

  /** The last chunk completes the event. */
  lemma LastChunkArrives(c: Codec, lane: Lane, request: string, operation: string, chunks: seq<FrameChunk>, p: Payload)
    requires Faithful(c) && operation in RUNTIME_OPERATIONS && CompleteGroup(chunks)
    requires Concat(DataOf(chunks)) == c.encode(p) && lane.pending == chunks[..|chunks| - 1]
    ensures Step(c, lane, Envelope(Some(request), operation, lane.wire, ChunkFields(c, chunks[|chunks| - 1])))
            == Outcome(Lane(lane.wire + 1, lane.logical + 1, []), Ok(Seen(Event(request, lane.logical, operation, p))))
  {
    var n := |chunks| - 1;
    ChunkFieldsRead(c, chunks[n]);
    assert chunks[..n] + [chunks[n]] == chunks;
  }

  /** Each of these chunks, but the last, waits for the next. */
  ghost predicate Waits(step: Stepper, lane: Lane, chunks: seq<FrameChunk>, es: seq<Envelope>)
    requires |chunks| == |es|
  {
    forall k | 0 <= k < |es| - 1 ::
      step(Lane(lane.wire + k, lane.logical, chunks[..k]), es[k])
      == Outcome(Lane(lane.wire + k + 1, lane.logical, chunks[..k + 1]), Ok(Collecting))
  }

  lemma {:induction false} GroupPilesUp(step: Stepper, lane: Lane, shown: seq<Event>,
                                        chunks: seq<FrameChunk>, es: seq<Envelope>, k: nat)
    requires k < |chunks| == |es| && Waits(step, lane, chunks, es) && lane.pending == []
    ensures Feed(step, Some((lane, shown)), es, k) == Some((Lane(lane.wire + k, lane.logical, chunks[..k]), shown))
    decreases k
  {
    if k > 0 {
      GroupPilesUp(step, lane, shown, chunks, es, k - 1);
    }
  }

  /** These envelopes carry these chunks of this event, numbered on from the lane. */
  ghost predicate CutFrom(c: Codec, lane: Lane, request: string, e: Emit, chunks: seq<FrameChunk>, es: seq<Envelope>)
  {
    && CompleteGroup(chunks) && Concat(DataOf(chunks)) == c.encode(e.payload) && |es| == |chunks|
    && (forall i | 0 <= i < |es| ::
          es[i] == Envelope(Some(request), e.operation, lane.wire + i, ChunkFields(c, chunks[i])))
  }

  lemma GroupWaits(c: Codec, lane: Lane, request: string, e: Emit, chunks: seq<FrameChunk>, es: seq<Envelope>)
    requires Faithful(c) && e.operation in RUNTIME_OPERATIONS && CutFrom(c, lane, request, e, chunks, es)
    ensures Waits(StepperOf(c), lane, chunks, es)
  {
    forall k | 0 <= k < |es| - 1
      ensures Step(c, Lane(lane.wire + k, lane.logical, chunks[..k]), es[k])
              == Outcome(Lane(lane.wire + k + 1, lane.logical, chunks[..k + 1]), Ok(Collecting))
    {
      ChunkWaits(c, Lane(lane.wire + k, lane.logical, chunks[..k]), request, e.operation, chunks, k);
    }
  }

  lemma GroupEnds(c: Codec, lane: Lane, request: string, e: Emit, chunks: seq<FrameChunk>, es: seq<Envelope>)
    requires Faithful(c) && e.operation in RUNTIME_OPERATIONS && CutFrom(c, lane, request, e, chunks, es)
    ensures StepperOf(c)(Lane(lane.wire + |es| - 1, lane.logical, chunks[..|es| - 1]), es[|es| - 1])
            == Outcome(Lane(lane.wire + |es|, lane.logical + 1, []),
                       Ok(Seen(Event(request, lane.logical, e.operation, e.payload))))
  {
    var n := |es| - 1;
    LastChunkArrives(c, Lane(lane.wire + n, lane.logical, chunks[..n]), request, e.operation, chunks, e.payload);
  }

  /** A payload that fits one envelope is its own event. */
  lemma WholeEventArrives(c: Codec, lane: Lane, request: string, e: Emit)
    requires lane.pending == [] && e.operation in RUNTIME_OPERATIONS && !ChunkShaped(e.payload)
    ensures Step(c, lane, Envelope(Some(request), e.operation, lane.wire, e.payload))
            == Outcome(Lane(lane.wire + 1, lane.logical + 1, []),
                       Ok(Seen(Event(request, lane.logical, e.operation, e.payload))))
  {
  }

  /** This step turns what this sender makes of an event back into the event. */
  ghost predicate Undoes(step: Stepper, send: Sender, request: string, lane: Lane, shown: seq<Event>, e: Emit)
  {
    FeedAll(step, Some((lane, shown)), send(e, lane.wire))
    == Some((Lane(lane.wire + |send(e, lane.wire)|, lane.logical + 1, []),
             shown + [Event(request, lane.logical, e.operation, e.payload)]))
  }

  lemma GroupArrives(step: Stepper, lane: Lane, shown: seq<Event>, chunks: seq<FrameChunk>, es: seq<Envelope>,
                     end: Lane, event: Event)
    requires 0 < |chunks| == |es| && Waits(step, lane, chunks, es) && lane.pending == []
    requires step(Lane(lane.wire + |es| - 1, lane.logical, chunks[..|es| - 1]), es[|es| - 1])
             == Outcome(end, Ok(Seen(event)))
    ensures FeedAll(step, Some((lane, shown)), es) == Some((end, shown + [event]))
  {
    GroupPilesUp(step, lane, shown, chunks, es, |es| - 1);
  }

  /** A group of chunk envelopes comes out as the payload it was cut from. */
  lemma ChunkedEventArrives(c: Codec, lane: Lane, shown: seq<Event>, request: string, e: Emit,
                            chunks: seq<FrameChunk>, es: seq<Envelope>)
    requires Faithful(c) && lane.pending == [] && e.operation in RUNTIME_OPERATIONS
    requires CutFrom(c, lane, request, e, chunks, es)
    ensures FeedAll(StepperOf(c), Some((lane, shown)), es)
            == Some((Lane(lane.wire + |es|, lane.logical + 1, []),
                     shown + [Event(request, lane.logical, e.operation, e.payload)]))
  {
    GroupWaits(c, lane, request, e, chunks, es);
    GroupEnds(c, lane, request, e, chunks, es);
    GroupArrives(StepperOf(c), lane, shown, chunks, es, Lane(lane.wire + |es|, lane.logical + 1, []),
                 Event(request, lane.logical, e.operation, e.payload));
  }

  lemma OneEnvelopeArrives(c: Codec, lane: Lane, shown: seq<Event>, request: string, e: Emit)
    requires Faithful(c) && lane.pending == [] && e.operation in RUNTIME_OPERATIONS && Recognisable(c, e.payload)
    requires |ChunkPayload(c.encode(e.payload), EVENT_CHUNK_BYTES)| == 1
    ensures Undoes(StepperOf(c), SenderOf(c, request), request, lane, shown, e)
  {
    WholeEventArrives(c, lane, request, e);
    assert Feed(StepperOf(c), Some((lane, shown)), Sent(c, request, e, lane.wire), 0) == Some((lane, shown));
  }

  /** One logical event comes out of its envelopes, whole and numbered. */
  lemma OneEventArrives(c: Codec, lane: Lane, shown: seq<Event>, request: string, e: Emit)
    requires Faithful(c) && lane.pending == []
    requires e.operation in RUNTIME_OPERATIONS && Recognisable(c, e.payload)
    ensures Undoes(StepperOf(c), SenderOf(c, request), request, lane, shown, e)
  {
    var chunks := ChunkPayload(c.encode(e.payload), EVENT_CHUNK_BYTES);
    if |chunks| == 1 {
      OneEnvelopeArrives(c, lane, shown, request, e);
    } else {
      ChunksReassemble(c.encode(e.payload), EVENT_CHUNK_BYTES);
      ChunkedEventArrives(c, lane, shown, request, e, chunks, Sent(c, request, e, lane.wire));
    }
  }

  /** Exactly the recognisable payloads arrive: one shaped like a chunk and sent whole never does. */
  lemma ArrivesIffRecognisable(c: Codec, lane: Lane, shown: seq<Event>, request: string, e: Emit)
    requires Faithful(c) && NotSelfContained(c) && lane.pending == [] && e.operation in RUNTIME_OPERATIONS
    ensures Undoes(StepperOf(c), SenderOf(c, request), request, lane, shown, e) <==> Recognisable(c, e.payload)
  {
    if Recognisable(c, e.payload) {
      OneEventArrives(c, lane, shown, request, e);
    } else {
      MistakenForAChunk(c, lane, request, e);
      var es := Sent(c, request, e, lane.wire);
      assert Feed(StepperOf(c), Some((lane, shown)), es, 0) == Some((lane, shown));
      var fed := FeedAll(StepperOf(c), Some((lane, shown)), es);
      assert fed == Advance(StepperOf(c), Some((lane, shown)), es[0]);
      assert fed.Some? && fed.value.1 != shown ==> fed.value.1[|shown|].payload != e.payload;
      assert (shown + [Event(request, lane.logical, e.operation, e.payload)])[|shown|].payload == e.payload;
    }
  }

  lemma MistakenForAChunk(c: Codec, lane: Lane, request: string, e: Emit)
    requires NotSelfContained(c) && lane.pending == [] && ChunkShaped(e.payload)
    ensures var item := Step(c, lane, Envelope(Some(request), e.operation, lane.wire, e.payload)).item;
            item.Ok? && item.value.Seen? ==> item.value.event.payload != e.payload
  {
    var chunk := FrameChunkOf(c, e.payload);
    if chunk.Ok? && chunk.value.Some? && chunk.value.value.total == 1 {
      var piece := chunk.value.value;
      assert [] + [piece] == [piece];
      assert DataOf([piece]) == [piece.data];
      assert Concat([piece.data]) == piece.data;
    }
  }

  /** The first `n` events come out of what was sent for them. */
  ghost predicate ComesOut(step: Stepper, send: Sender, request: string, emits: seq<Emit>, n: nat)
    requires n <= |emits|
  {
    FeedAll(step, Some((IDLE, [])), SentUpTo(send, emits, n))
    == Some((Lane(|SentUpTo(send, emits, n)|, n, []), Expected(request, emits)[..n]))
  }

  lemma UndoesOneMore(step: Stepper, send: Sender, request: string, emits: seq<Emit>, n: nat)
    requires n < |emits| && ComesOut(step, send, request, emits, n)
    requires var lane := Lane(|SentUpTo(send, emits, n)|, n, []);
             Undoes(step, send, request, lane, Expected(request, emits)[..n], emits[n])
    ensures ComesOut(step, send, request, emits, n + 1)
  {
    var before := SentUpTo(send, emits, n);
    FeedAppend(step, Some((IDLE, [])), before, send(emits[n], |before|));
    var event := Event(request, n, emits[n].operation, emits[n].payload);
    assert Expected(request, emits)[..n + 1] == Expected(request, emits)[..n] + [event];
  }

  lemma {:induction false} UndoesUpTo(step: Stepper, send: Sender, request: string, emits: seq<Emit>, n: nat)
    requires n <= |emits|
    requires forall l: Lane, s, i | l.pending == [] && 0 <= i < |emits| :: Undoes(step, send, request, l, s, emits[i])
    ensures ComesOut(step, send, request, emits, n)
    decreases n
  {
    if n > 0 {
      UndoesUpTo(step, send, request, emits, n - 1);
      var lane := Lane(|SentUpTo(send, emits, n - 1)|, n - 1, []);
      assert Undoes(step, send, request, lane, Expected(request, emits)[..n - 1], emits[n - 1]);
      UndoesOneMore(step, send, request, emits, n - 1);
    }
  }

  lemma EachEventArrives(c: Codec, request: string, emits: seq<Emit>)
    requires Faithful(c) && Plain(c, emits)
    ensures forall l: Lane, s, i | l.pending == [] && 0 <= i < |emits| ::
              Undoes(StepperOf(c), SenderOf(c, request), request, l, s, emits[i])
  {
    forall l: Lane, s, i | l.pending == [] && 0 <= i < |emits|
      ensures Undoes(StepperOf(c), SenderOf(c, request), request, l, s, emits[i])
    {
      OneEventArrives(c, l, s, request, emits[i]);
    }
  }

  /** A whole request comes out as its own list of events, numbered 0, 1, 2, … */
  lemma RequestArrives(c: Codec, request: string, emits: seq<Emit>)
    requires Faithful(c) && Plain(c, emits)
    ensures FeedAll(StepperOf(c), Some((IDLE, [])), SentAll(SenderOf(c, request), emits))
            == Some((Lane(|SentAll(SenderOf(c, request), emits)|, |emits|, []), Expected(request, emits)))
  {
    EachEventArrives(c, request, emits);
    UndoesUpTo(StepperOf(c), SenderOf(c, request), request, emits, |emits|);
    assert Expected(request, emits)[..|emits|] == Expected(request, emits);
  }

  // ----------------------------------------------- what an accepted request is made of

  /** How many of the first `n` envelopes carry a wire number that counts. */
  function CountedUpTo(es: seq<Envelope>, n: nat): nat
    requires n <= |es|
  {
    if n == 0 then 0 else CountedUpTo(es, n - 1) + if Counted(es[n - 1]) then 1 else 0
  }

  /** The counted envelopes among the first `n` carry 0, 1, 2, … */
  predicate InOrder(es: seq<Envelope>, n: nat)
    requires n <= |es|
  {
    forall i | 0 <= i < n && Counted(es[i]) :: es[i].sequence == CountedUpTo(es, i)
  }

  /** One payload and the envelopes that carried it. */
  datatype Group = Group(parts: seq<Envelope>, payload: Payload)

  /** These envelopes carry these chunks. */
  predicate Carries(c: Codec, parts: seq<Envelope>, chunks: seq<FrameChunk>)
  {
    |parts| == |chunks| && forall i | 0 <= i < |parts| :: FrameChunkOf(c, parts[i].payload) == Ok(Some(chunks[i]))
  }

  /** A payload sent whole, or the decoded content of one complete run of chunks. */
  ghost predicate WellMade(c: Codec, g: Group)
  {
    || (|g.parts| == 1 && !ChunkShaped(g.parts[0].payload) && g.payload == g.parts[0].payload)
    || exists chunks :: Carries(c, g.parts, chunks) && CompleteGroup(chunks)
                        && c.decode(Concat(DataOf(chunks))) == Some(g.payload)
  }

  /** The start of a run of chunks that is not complete yet. */
  predicate Unfinished(chunks: seq<FrameChunk>)
  {
    forall i | 0 <= i < |chunks| :: chunks[i].index == i && chunks[i].total == chunks[0].total > |chunks|
  }

  function AllParts(groups: seq<Group>): seq<Envelope>
    decreases |groups|
  {
    if groups == [] then [] else AllParts(groups[..|groups| - 1]) + groups[|groups| - 1].parts
  }

  /** The logical events of a list of groups: one for each whose last envelope counts, numbered 0, 1, 2, … */
  function EventsOf(groups: seq<Group>): seq<Event>
    decreases |groups|
  {
    if groups == [] then []
    else
      var before, g := EventsOf(groups[..|groups| - 1]), groups[|groups| - 1];
      if g.parts == [] || !Counted(g.parts[|g.parts| - 1]) then before
      else
        var last := g.parts[|g.parts| - 1];
        before + [Event(last.requestId.value, |before|, last.operation, g.payload)]
  }

  /** The first `n` envelopes are these groups and the start of one more. */
  ghost predicate MadeOf(c: Codec, es: seq<Envelope>, n: nat, groups: seq<Group>, rest: seq<Envelope>,
                         pending: seq<FrameChunk>)
    requires n <= |es|
  {
    && es[..n] == AllParts(groups) + rest && (forall i | 0 <= i < |groups| :: WellMade(c, groups[i]))
    && Carries(c, rest, pending) && Unfinished(pending)
  }

  ghost predicate Grouped(c: Codec, es: seq<Envelope>, lane: Lane, shown: seq<Event>)
  {
    && lane.wire == CountedUpTo(es, |es|) && lane.logical == |shown|
    && exists groups, rest :: Shows(c, es, |es|, groups, rest, lane.pending, shown)
  }

  ghost predicate Shows(c: Codec, es: seq<Envelope>, n: nat, groups: seq<Group>, rest: seq<Envelope>,
                        pending: seq<FrameChunk>, shown: seq<Event>)
    requires n <= |es|
  {
    MadeOf(c, es, n, groups, rest, pending) && shown == EventsOf(groups)
  }

  lemma PartsSnoc(groups: seq<Group>, g: Group)
    ensures AllParts(groups + [g]) == AllParts(groups) + g.parts
  {
    assert (groups + [g])[..|groups|] == groups;
  }

  lemma EventsSnoc(groups: seq<Group>, g: Group, last: Envelope)
    requires g.parts != [] && last == g.parts[|g.parts| - 1]
    ensures EventsOf(groups + [g])
            == EventsOf(groups)
               + if !Counted(last) then []
                 else [Event(last.requestId.value, |EventsOf(groups)|, last.operation, g.payload)]
  {
    assert (groups + [g])[..|groups|] == groups;
  }

  /** One more chunk joins the unfinished run. */
  lemma ChunkJoins(c: Codec, es: seq<Envelope>, n: nat, groups: seq<Group>, rest: seq<Envelope>,
                   pending: seq<FrameChunk>, piece: FrameChunk)
    requires n < |es| && MadeOf(c, es, n, groups, rest, pending)
    requires FrameChunkOf(c, es[n].payload) == Ok(Some(piece)) && Unfinished(pending + [piece])
    ensures MadeOf(c, es, n + 1, groups, rest + [es[n]], pending + [piece])
  {
    assert es[..n + 1] == AllParts(groups) + (rest + [es[n]]);
  }

  lemma AllWellMade(c: Codec, groups: seq<Group>, g: Group)
    requires (forall i | 0 <= i < |groups| :: WellMade(c, groups[i])) && WellMade(c, g)
    ensures forall i | 0 <= i < |groups + [g]| :: WellMade(c, (groups + [g])[i])
  {
  }

  lemma PrefixEnds(es: seq<Envelope>, n: nat, parts: seq<Envelope>, rest: seq<Envelope>, last: seq<Envelope>)
    requires n < |es| && es[..n] == parts + rest && last == rest + [es[n]]
    ensures es[..n + 1] == (parts + last) + []
  {
  }

  /** One more group is complete. */
  lemma GroupEnded(c: Codec, es: seq<Envelope>, n: nat, groups: seq<Group>, rest: seq<Envelope>,
                   pending: seq<FrameChunk>, g: Group)
    requires n < |es| && MadeOf(c, es, n, groups, rest, pending) && g.parts == rest + [es[n]] && WellMade(c, g)
    ensures MadeOf(c, es, n + 1, groups + [g], [], [])
  {
    PartsSnoc(groups, g);
    AllWellMade(c, groups, g);
    PrefixEnds(es, n, AllParts(groups), rest, g.parts);
  }

  /** An envelope that leads to nothing yet. */
  lemma WaitingGoesOn(c: Codec, es: seq<Envelope>, n: nat, lane: Lane, groups: seq<Group>, rest: seq<Envelope>)
    requires n < |es| && MadeOf(c, es, n, groups, rest, lane.pending)
    requires Assemble(c, lane.pending, es[n].payload).payload == Ok(None)
    ensures MadeOf(c, es, n + 1, groups, rest + [es[n]], Assemble(c, lane.pending, es[n].payload).pending)
  {
    var piece := FrameChunkOf(c, es[n].payload).value.value;
    ChunkJoins(c, es, n, groups, rest, lane.pending, piece);
  }

  /** An envelope that completes a payload. */
  lemma EndingGoesOn(c: Codec, es: seq<Envelope>, n: nat, lane: Lane, groups: seq<Group>, rest: seq<Envelope>,
                     payload: Payload, g: Group)
    requires n < |es| && MadeOf(c, es, n, groups, rest, lane.pending) && g == Group(rest + [es[n]], payload)
    requires Assemble(c, lane.pending, es[n].payload).payload == Ok(Some(payload))
    ensures MadeOf(c, es, n + 1, groups + [g], [], Assemble(c, lane.pending, es[n].payload).pending)
  {
    AssembledIsWellMade(c, lane.pending, rest, es[n], g);
    GroupEnded(c, es, n, groups, rest, lane.pending, g);
  }

  /** A step that does not refuse, taken apart. */
  lemma StepTakes(c: Codec, lane: Lane, e: Envelope, o: Outcome)
    requires o == Step(c, lane, e) && o.item.Ok?
    ensures Counted(e) ==> e.sequence == lane.wire
    ensures var a := Assemble(c, lane.pending, e.payload);
            && a.payload.Ok? && o.lane.pending == a.pending
            && o.lane.wire == lane.wire + (if Counted(e) then 1 else 0)
            && o.lane.logical == lane.logical + (if o.item.value.Seen? then 1 else 0)
            && (o.item.value.Seen? <==> a.payload.value.Some? && Counted(e))
            && (o.item.value.Seen? ==>
                  o.item.value.event == Event(e.requestId.value, lane.logical, e.operation, a.payload.value.value))
  {
  }

  /** The events shown after one more payload. */
  lemma ShownNext(groups: seq<Group>, g: Group, e: Envelope, shown: seq<Event>, shown': seq<Event>, o: Outcome)
    requires g.parts != [] && e == g.parts[|g.parts| - 1] && shown == EventsOf(groups) && o.item.Ok?
    requires o.item.value.Seen? <==> Counted(e)
    requires o.item.value.Seen? ==> o.item.value.event == Event(e.requestId.value, |shown|, e.operation, g.payload)
    requires shown' == if o.item.value.Seen? then shown + [o.item.value.event] else shown
    ensures shown' == EventsOf(groups + [g])
  {
    EventsSnoc(groups, g, e);
  }

  lemma WaitingShows(c: Codec, es: seq<Envelope>, n: nat, lane: Lane, lane': Lane, groups: seq<Group>,
                     rest: seq<Envelope>, shown: seq<Event>)
    requires n < |es| && Shows(c, es, n, groups, rest, lane.pending, shown)
    requires Assemble(c, lane.pending, es[n].payload) == Assembled(lane'.pending, Ok(None))
    ensures Shows(c, es, n + 1, groups, rest + [es[n]], lane'.pending, shown)
  {
    WaitingGoesOn(c, es, n, lane, groups, rest);
  }

  lemma EndingShows(c: Codec, es: seq<Envelope>, n: nat, lane: Lane, o: Outcome, groups: seq<Group>,
                    rest: seq<Envelope>, shown: seq<Event>, shown': seq<Event>, payload: Payload)
    requires n < |es| && Shows(c, es, n, groups, rest, lane.pending, shown) && o.item.Ok?
    requires Assemble(c, lane.pending, es[n].payload) == Assembled(o.lane.pending, Ok(Some(payload)))
    requires o.item.value.Seen? <==> Counted(es[n])
    requires o.item.value.Seen? ==>
               o.item.value.event == Event(es[n].requestId.value, |shown|, es[n].operation, payload)
    requires shown' == if o.item.value.Seen? then shown + [o.item.value.event] else shown
    ensures Shows(c, es, n + 1, groups + [Group(rest + [es[n]], payload)], [], o.lane.pending, shown')
  {
    var g := Group(rest + [es[n]], payload);
    EndingGoesOn(c, es, n, lane, groups, rest, payload, g);
    ShownNext(groups, g, es[n], shown, shown', o);
  }

  /** What an envelope that is not refused adds. */
  lemma GroupsGoOn(c: Codec, es: seq<Envelope>, n: nat, lane: Lane, shown: seq<Event>, o: Outcome, shown': seq<Event>,
                   groups: seq<Group>, rest: seq<Envelope>) returns (groups': seq<Group>, rest': seq<Envelope>)
    requires n < |es| && Shows(c, es, n, groups, rest, lane.pending, shown) && lane.logical == |shown|
    requires o == Step(c, lane, es[n]) && o.item.Ok?
    requires shown' == if o.item.value.Seen? then shown + [o.item.value.event] else shown
    ensures Shows(c, es, n + 1, groups', rest', o.lane.pending, shown')
  {
    var payload := Assemble(c, lane.pending, es[n].payload).payload;
    StepTakes(c, lane, es[n], o);
    if payload.value.None? {
      WaitingShows(c, es, n, lane, o.lane, groups, rest, shown);
      groups', rest' := groups, rest + [es[n]];
    } else {
      EndingShows(c, es, n, lane, o, groups, rest, shown, shown', payload.value.value);
      groups', rest' := groups + [Group(rest + [es[n]], payload.value.value)], [];
    }
  }

  lemma AssembledIsWellMade(c: Codec, pending: seq<FrameChunk>, rest: seq<Envelope>, e: Envelope, g: Group)
    requires Carries(c, rest, pending) && g.parts == rest + [e]
    requires Assemble(c, pending, e.payload).payload == Ok(Some(g.payload))
    ensures WellMade(c, g)
  {
    var chunk := FrameChunkOf(c, e.payload);
    if chunk.value.Some? {
      assert Carries(c, g.parts, pending + [chunk.value.value]);
    } else {
      assert rest == [];
    }
  }

  /** The lane and the events shown after the first `n` envelopes. */
  function Reached(c: Codec, es: seq<Envelope>, n: nat): Progress
    requires n <= |es|
  {
    Feed(StepperOf(c), Some((IDLE, [])), es, n)
  }

  lemma ReachedOneMore(c: Codec, es: seq<Envelope>, n: nat)
    requires n < |es| && Reached(c, es, n + 1).Some?
    ensures Reached(c, es, n).Some?
    ensures var (lane, shown) := Reached(c, es, n).value;
            var o := Step(c, lane, es[n]);
            o.item.Ok? && Reached(c, es, n + 1)
                          == Some((o.lane, if o.item.value.Seen? then shown + [o.item.value.event] else shown))
  {
  }

  lemma {:induction false} AcceptedInOrder(c: Codec, es: seq<Envelope>, n: nat)
    requires n <= |es| && Reached(c, es, n).Some?
    ensures InOrder(es, n)
    ensures var (lane, shown) := Reached(c, es, n).value; lane.wire == CountedUpTo(es, n) && lane.logical == |shown|
    decreases n
  {
    if n > 0 {
      ReachedOneMore(c, es, n - 1);
      AcceptedInOrder(c, es, n - 1);
      var lane := Reached(c, es, n - 1).value.0;
      StepTakes(c, lane, es[n - 1], Step(c, lane, es[n - 1]));
    }
  }

  lemma {:induction false} AcceptedShows(c: Codec, es: seq<Envelope>, n: nat)
      returns (groups: seq<Group>, rest: seq<Envelope>)
    requires n <= |es| && Reached(c, es, n).Some?
    ensures var (lane, shown) := Reached(c, es, n).value; Shows(c, es, n, groups, rest, lane.pending, shown)
    decreases n
  {
    if n == 0 {
      groups, rest := [], [];
    } else {
      ReachedOneMore(c, es, n - 1);
      AcceptedInOrder(c, es, n - 1);
      groups, rest := AcceptedShows(c, es, n - 1);
      var (lane, shown) := Reached(c, es, n - 1).value;
      var shown' := Reached(c, es, n).value.1;
      groups, rest := GroupsGoOn(c, es, n - 1, lane, shown, Step(c, lane, es[n - 1]), shown', groups, rest);
    }
  }

  /**
   A request is accepted only if its counted envelopes carry 0, 1, 2, …, and its envelopes are
   payloads sent whole and complete runs of chunks, one after another, but for the start of one
   more run at the end. What it shows are the events of those, numbered 0, 1, 2, …
   */
  lemma AcceptedIsGrouped(c: Codec, es: seq<Envelope>)
    requires FeedAll(StepperOf(c), Some((IDLE, [])), es).Some?
    ensures InOrder(es, |es|)
    ensures var (lane, shown) := FeedAll(StepperOf(c), Some((IDLE, [])), es).value; Grouped(c, es, lane, shown)
  {
    AcceptedInOrder(c, es, |es|);
    var groups, rest := AcceptedShows(c, es, |es|);
  }

  // ---------------------------------------------------- interleaved requests

  /** The envelopes of one lane among the first `n`. */
  function Project(es: seq<Envelope>, key: string, n: nat): seq<Envelope>
    requires n <= |es|
  {
    if n == 0 then []
    else
      var before := Project(es, key, n - 1);
      if Key(es[n - 1]) == key then before + [es[n - 1]] else before
  }

  function Mine(events: seq<Event>, request: string): seq<Event>
  {
    if events == [] then []
    else
      var last := events[|events| - 1];
      Mine(events[..|events| - 1], request) + if last.requestId == request then [last] else []
  }

  lemma FeedSnoc(step: Stepper, at: Progress, es: seq<Envelope>, e: Envelope)
    ensures FeedAll(step, at, es + [e]) == Advance(step, FeedAll(step, at, es), e)
  {
    FeedAgrees(step, at, es + [e], es, |es|);
  }

  /** A refused envelope spoils its lane for good. */
  lemma {:induction false} RefusalStays(step: Stepper, at: Progress, es: seq<Envelope>, key: string, n: nat, m: nat)
    requires n <= m <= |es| && FeedAll(step, at, Project(es, key, n)).None?
    ensures FeedAll(step, at, Project(es, key, m)).None?
    decreases m
  {
    if n < m {
      RefusalStays(step, at, es, key, n, m - 1);
      FeedSnoc(step, at, Project(es, key, m - 1), es[m - 1]);
    }
  }

  /** Every request's own envelopes are accepted. */
  ghost predicate AllAccepted(step: Stepper, es: seq<Envelope>)
  {
    forall key :: FeedAll(step, Some((IDLE, [])), Project(es, key, |es|)).Some?
  }

  lemma RefusalSpoils(step: Stepper, es: seq<Envelope>, n: nat)
    requires n < |es| && FeedAll(step, Some((IDLE, [])), Project(es, Key(es[n]), n + 1)).None?
    ensures !AllAccepted(step, es)
  {
    RefusalStays(step, Some((IDLE, [])), es, Key(es[n]), n + 1, |es|);
  }

  lemma MineSnoc(events: seq<Event>, e: Event, request: string)
    ensures Mine(events + [e], request)
            == if e.requestId == request then Mine(events, request) + [e] else Mine(events, request)
  {
    assert (events + [e])[..|events|] == events;
  }

  /** One more envelope, seen from any one lane. */
  lemma FedOneMore(step: Stepper, es: seq<Envelope>, n: nat, key: string, before: Lane, after: Lane,
                   shown: seq<Event>, item: Item)
    requires n < |es| && FeedAll(step, Some((IDLE, [])), Project(es, key, n)) == Some((before, Mine(shown, key)))
    requires key == Key(es[n]) ==> step(before, es[n]) == Outcome(after, Ok(item))
    requires key != Key(es[n]) ==> after == before
    requires item.Seen? ==> item.event.requestId == Key(es[n])
    ensures FeedAll(step, Some((IDLE, [])), Project(es, key, n + 1))
            == Some((after, Mine(if item.Seen? then shown + [item.event] else shown, key)))
  {
    FeedSnoc(step, Some((IDLE, [])), Project(es, key, n), es[n]);
    if item.Seen? {
      MineSnoc(shown, item.event, key);
    }
  }

  /** `ChunkedEnvelopeAssembler`: pending chunks per request. */
  class ChunkedEnvelopeAssembler {
    const codec: Codec
    var pending: map<string, seq<FrameChunk>>

    constructor (codec: Codec)
      ensures this.codec == codec && pending == map[]
    {
      this.codec := codec;
      pending := map[];
    }

    function Waiting(key: string): seq<FrameChunk>
      reads this
    {
      if key in pending then pending[key] else []
    }

    method Accept(e: Envelope) returns (r: Result<Option<Envelope>, string>)
      modifies this
      ensures forall key | key != Key(e) :: Waiting(key) == old(Waiting(key))
      ensures var a := Assemble(codec, old(Waiting(Key(e))), e.payload);
              && Waiting(Key(e)) == a.pending
              && (r.Err? <==> a.payload.Err?) && (r.Err? ==> r.error == a.payload.error)
              && (r.Ok? ==>
                    r.value == if a.payload.value.None? then None else Some(e.(payload := a.payload.value.value)))
    {
      var key := Key(e);
      var chunk := FrameChunkOf(codec, e.payload);
      if chunk.Err? {
        return Err(chunk.error);
      }
      var chunks := Waiting(key);
      if chunk.value.None? {
        if chunks != [] {
          pending := pending - {key};
          return Err("Frame chunks are incomplete or out of order.");
        }
        return Ok(Some(e));
      }
      var piece := chunk.value.value;
      if piece.index != |chunks| || (chunks != [] && piece.total != chunks[0].total) {
        pending := pending - {key};
        return Err("Frame chunks are incomplete or out of order.");
      }
      chunks := chunks + [piece];
      if |chunks| < piece.total {
        pending := pending[key := chunks];
        return Ok(None);
      }
      pending := pending - {key};
      var whole := ReassembleChunks(chunks);
      if whole.Err? {
        return Err("Frame chunks are incomplete or out of order.");
      }
      var payload := codec.decode(whole.value);
      if payload.None? {
        return Err("The reassembled payload is not valid JSON.");
      }
      r := Ok(Some(e.(payload := payload.value)));
    }
  }

  /** `RuntimeEventStream`: the last wire number and the next logical number of every request. */
  class RuntimeEventStream {
    const codec: Codec
    const assembler: ChunkedEnvelopeAssembler
    var wire: map<string, nat>
    var logical: map<string, nat>

    ghost predicate Valid()
      reads this
    {
      assembler.codec == codec
    }

    constructor (codec: Codec)
      ensures Valid() && fresh(assembler) && this.codec == codec
      ensures forall key :: LaneOf(key) == IDLE
    {
      this.codec := codec;
      assembler := new ChunkedEnvelopeAssembler(codec);
      wire, logical := map[], map[];
    }

    function LaneOf(key: string): Lane
      reads this, assembler
    {
      Lane(if key in wire then wire[key] + 1 else 0, if key in logical then logical[key] else 0, assembler.Waiting(key))
    }

    /** Check and take the wire number of a counted envelope. */
    method TakeNumber(e: Envelope) returns (ok: bool)
      modifies this`wire
      ensures ok == (Counted(e) ==> e.sequence == old(LaneOf(Key(e)).wire))
      ensures LaneOf(Key(e)) == old(LaneOf(Key(e))).(wire := LaneOf(Key(e)).wire)
      ensures LaneOf(Key(e)).wire == old(LaneOf(Key(e)).wire) + if ok && Counted(e) then 1 else 0
      ensures forall key | key != Key(e) :: LaneOf(key) == old(LaneOf(key))
    {
      if Counted(e) {
        var request := e.requestId.value;
        if e.sequence != if request in wire then wire[request] + 1 else 0 {
          return false;
        }
        wire := wire[request := e.sequence];
      }
      ok := true;
    }

    /** One envelope moves its own request's lane by one step and no other. */
    method Accept(e: Envelope) returns (r: Result<Item, string>)
      requires Valid()
      modifies this, assembler
      ensures Valid()
      ensures Counted(e) && e.sequence != old(LaneOf(Key(e)).wire) ==> r.Err? && LaneOf(Key(e)) == old(LaneOf(Key(e)))
      ensures r == Step(codec, old(LaneOf(Key(e))), e).item
      ensures LaneOf(Key(e)) == Step(codec, old(LaneOf(Key(e))), e).lane
      ensures forall key | key != Key(e) :: LaneOf(key) == old(LaneOf(key))
    {
      var ok := TakeNumber(e);
      if !ok {
        return Err("The runtime response events are incomplete or out of order.");
      }
      r := PlaceNumbered(e);
    }

    method PlaceNumbered(e: Envelope) returns (r: Result<Item, string>)
      requires Valid()
      modifies this`logical, assembler
      ensures Valid()
      ensures r == Place(codec, old(LaneOf(Key(e))), e).item
      ensures LaneOf(Key(e)) == Place(codec, old(LaneOf(Key(e))), e).lane
      ensures forall key | key != Key(e) :: LaneOf(key) == old(LaneOf(key))
    {
      var whole := assembler.Accept(e);
      if whole.Err? {
        return Err(whole.error);
      }
      if whole.value.None? {
        return Ok(Collecting);
      }
      if !Counted(e) {
        return Ok(Passed(whole.value.value));
      }
      var sequence := NextLogical(e.requestId.value);
      r := Ok(Seen(Event(e.requestId.value, sequence, e.operation, whole.value.value.payload)));
    }

    /** Take the next logical number of a request. */
    method NextLogical(request: string) returns (sequence: nat)
      modifies this`logical
      ensures sequence == old(LaneOf(request).logical)
      ensures LaneOf(request) == old(LaneOf(request)).(logical := sequence + 1)
      ensures forall key | key != request :: LaneOf(key) == old(LaneOf(key))
    {
      sequence := if request in logical then logical[request] else 0;
      logical := logical[request := sequence + 1];
    }

    /** Every lane has been fed exactly its own envelopes and has shown exactly its own events. */
    ghost predicate Fed(step: Stepper, es: seq<Envelope>, n: nat, events: seq<Event>)
      requires n <= |es|
      reads this, assembler
    {
      forall key :: FeedAll(step, Some((IDLE, [])), Project(es, key, n)) == Some((LaneOf(key), Mine(events, key)))
    }

    /** Accept one more envelope of a stream. */
    method AcceptNext(es: seq<Envelope>, n: nat, shown: seq<Event>, ghost step: Stepper) returns (r: Option<seq<Event>>)
      requires Valid() && n < |es| && step == StepperOf(codec) && Fed(step, es, n, shown)
      modifies this, assembler
      ensures Valid()
      ensures r.Some? ==> Fed(step, es, n + 1, r.value)
      ensures r.None? ==> FeedAll(step, Some((IDLE, [])), Project(es, Key(es[n]), n + 1)).None?
    {
      var e := es[n];
      ghost var before := LaneOf(Key(e));
      var item := Accept(e);
      assert step(before, e) == Step(codec, before, e);
      if item.Err? {
        FeedSnoc(step, Some((IDLE, [])), Project(es, Key(e), n), e);
        return None;
      }
      var events := if item.value.Seen? then shown + [item.value.event] else shown;
      forall key
        ensures FeedAll(step, Some((IDLE, [])), Project(es, key, n + 1)) == Some((LaneOf(key), Mine(events, key)))
      {
        FedOneMore(step, es, n, key, old(LaneOf(key)), LaneOf(key), shown, item.value);
      }
      r := Some(events);
    }

    /**
     Feed a stream of interleaved requests. It is accepted exactly when every request's own
     envelopes are, and then every request's events are what its own envelopes give.
     */
    method AcceptAll(es: seq<Envelope>) returns (r: Option<seq<Event>>)
      requires Valid() && forall key :: LaneOf(key) == IDLE
      modifies this, assembler
      ensures Valid()
      ensures r.Some? <==> AllAccepted(StepperOf(codec), es)
      ensures r.Some? ==> Fed(StepperOf(codec), es, |es|, r.value)
      // Nothing is accepted with a gap or a repeat in its numbers, or with a run of chunks cut short.
      ensures r.Some? ==> forall key :: InOrder(Project(es, key, |es|), |Project(es, key, |es|)|)
      ensures r.Some? ==> forall key ::
                Grouped(codec, Project(es, key, |es|), LaneOf(key), Mine(r.value, key))
    {
      var events: seq<Event> := [];
      ghost var step := StepperOf(codec);
      for n := 0 to |es|
        invariant Valid() && Fed(step, es, n, events)
      {
        var next := AcceptNext(es, n, events, step);
        if next.None? {
          RefusalSpoils(step, es, n);
          return None;
        }
        events := next.value;
      }
      r := Some(events);
      forall key
        ensures InOrder(Project(es, key, |es|), |Project(es, key, |es|)|)
        ensures Grouped(codec, Project(es, key, |es|), LaneOf(key), Mine(events, key))
      {
        AcceptedIsGrouped(codec, Project(es, key, |es|));
      }
    }

    /** Any interleaving of several requests' envelopes gives back each request's own list of events. */
    method AcceptInterleaved(es: seq<Envelope>, ghost emits: map<string, seq<Emit>>) returns (r: Option<seq<Event>>)
      requires Valid() && Faithful(codec) && forall key :: LaneOf(key) == IDLE
      requires forall key | key in emits :: Plain(codec, emits[key])
      requires forall key | key in emits :: Project(es, key, |es|) == SentAll(SenderOf(codec, key), emits[key])
      requires forall key | key !in emits :: Project(es, key, |es|) == []
      modifies this, assembler
      ensures r.Some?
      ensures forall key :: Mine(r.value, key) == if key in emits then Expected(key, emits[key]) else []
    {
      forall key | key in emits
        ensures FeedAll(StepperOf(codec), Some((IDLE, [])), Project(es, key, |es|)).Some?
        ensures FeedAll(StepperOf(codec), Some((IDLE, [])), Project(es, key, |es|)).value.1 == Expected(key, emits[key])
      {
        RequestArrives(codec, key, emits[key]);
      }
      r := AcceptAll(es);
    }
  }
}
