/**
 The adapter's event buffer and `_stream_live`: retries of a flaky backend never
 mix the events of two attempts in one response.
 */
module LiveStream {
  import opened Base
  import opened Wire

  /** The newest `n` elements, as a bounded deque keeps them. */
  function Newest(n: nat, s: seq<Envelope>): (r: seq<Envelope>)
  {
    if |s| <= n then s else s[|s| - n..]
  }

  lemma NewestTwice(n: nat, a: seq<Envelope>, b: seq<Envelope>)
    ensures Newest(n, Newest(n, a) + b) == Newest(n, a + b)
  {
  }

  lemma NewestStep(n: nat, log: seq<Envelope>, sent: seq<Envelope>, k: nat)
    requires k < |sent|
    ensures Newest(n, Newest(n, log + sent[..k]) + [sent[k]]) == Newest(n, log + sent[..k + 1])
  {
    NewestTwice(n, log + sent[..k], [sent[k]]);
    assert log + sent[..k] + [sent[k]] == log + sent[..k + 1];
  }

  /** What the backend does on one attempt: it yields events, then finishes or fails transiently. */
  datatype Attempt = Attempt(emits: seq<Emit>, failed: bool)

  /** What is written for the first `n` events when each is written as soon as it is buffered. */
  function Written(send: Sender, max: nat, emits: seq<Emit>, n: nat): seq<Envelope>
    requires n <= |emits|
  {
    if n == 0 then []
    else Written(send, max, emits, n - 1) + Newest(max, send(emits[n - 1], |SentUpTo(send, emits, n - 1)|))
  }

  /** Every event among the first `n` fits the buffer. */
  predicate Fits(send: Sender, max: nat, emits: seq<Emit>, n: nat)
    requires n <= |emits|
  {
    forall i | 0 <= i < n :: |send(emits[i], 0)| <= max
  }

  ghost predicate WellNumbered(send: Sender)
  {
    forall e, n: nat :: |send(e, n)| == |send(e, 0)| > 0 && Contiguous(send(e, n), n)
  }

  lemma SenderNumbersWell(c: Codec, request: string)
    ensures WellNumbered(SenderOf(c, request))
  {
  }

  lemma {:induction false} FittingIsAll(send: Sender, max: nat, emits: seq<Emit>, n: nat)
    requires n <= |emits| && WellNumbered(send) && Fits(send, max, emits, n)
    ensures Written(send, max, emits, n) == SentUpTo(send, emits, n)
    decreases n
  {
    if n > 0 {
      FittingIsAll(send, max, emits, n - 1);
    }
  }

  ghost predicate GapFreeIffFits(send: Sender, max: nat, emits: seq<Emit>, n: nat)
    requires n <= |emits|
  {
    Contiguous(Written(send, max, emits, n), 0) <==> Fits(send, max, emits, n)
  }

  lemma {:induction false} GapFree(send: Sender, max: nat, emits: seq<Emit>, n: nat)
    requires n <= |emits| && WellNumbered(send) && max > 0
    ensures GapFreeIffFits(send, max, emits, n)
    decreases n
  {
    if n > 0 {
      GapFree(send, max, emits, n - 1);
      GapFreeStep(send, max, emits, n - 1, n);
    } else {
      NothingFits(send, max, emits, n);
    }
  }

  lemma GapFreeStep(send: Sender, max: nat, emits: seq<Emit>, before: nat, n: nat)
    requires before < |emits| && n == before + 1 && WellNumbered(send) && max > 0
    requires GapFreeIffFits(send, max, emits, before)
    ensures GapFreeIffFits(send, max, emits, n)
  {
    OneMoreFits(send, max, emits, before, n);
  }

  lemma NothingFits(send: Sender, max: nat, emits: seq<Emit>, n: nat)
    requires n == 0
    ensures GapFreeIffFits(send, max, emits, n)
  {
  }

  /** The written numbers have no gap exactly when no event is too large for the buffer. */
  lemma ContiguousIffFits(send: Sender, max: nat, emits: seq<Emit>, n: nat)
    requires n <= |emits| && WellNumbered(send) && max > 0
    ensures Contiguous(Written(send, max, emits, n), 0) <==> Fits(send, max, emits, n)
  {
    GapFree(send, max, emits, n);
  }

  lemma OneMoreFits(send: Sender, max: nat, emits: seq<Emit>, before: nat, n: nat)
    requires before < |emits| && n == before + 1 && WellNumbered(send) && max > 0
    requires Contiguous(Written(send, max, emits, before), 0) <==> Fits(send, max, emits, before)
    ensures Contiguous(Written(send, max, emits, n), 0) <==> Fits(send, max, emits, n)
  {
    OneIsNumbered(send, max, emits, before);
    WrittenStep(send, max, emits, before, n);
    FitsStep(send, max, emits, before, n);
    NextContiguous(Written(send, max, emits, before), OneSent(send, emits, before), max,
                   Fits(send, max, emits, before));
  }

  /** The envelopes of the event at this position. */
  function OneSent(send: Sender, emits: seq<Emit>, n: nat): seq<Envelope>
    requires n < |emits|
  {
    send(emits[n], |SentUpTo(send, emits, n)|)
  }

  lemma WrittenStep(send: Sender, max: nat, emits: seq<Emit>, before: nat, n: nat)
    requires before < |emits| && n == before + 1
    ensures Written(send, max, emits, n)
            == Written(send, max, emits, before) + Newest(max, OneSent(send, emits, before))
  {
  }

  lemma OneIsNumbered(send: Sender, max: nat, emits: seq<Emit>, n: nat)
    requires n < |emits| && WellNumbered(send)
    ensures |OneSent(send, emits, n)| == |send(emits[n], 0)| > 0
    ensures Fits(send, max, emits, n) ==> Contiguous(OneSent(send, emits, n), |Written(send, max, emits, n)|)
  {
    if Fits(send, max, emits, n) {
      FittingIsAll(send, max, emits, n);
    }
  }

  lemma FitsStep(send: Sender, max: nat, emits: seq<Emit>, before: nat, n: nat)
    requires before < |emits| && n == before + 1
    ensures Fits(send, max, emits, n) <==> Fits(send, max, emits, before) && |send(emits[before], 0)| <= max
  {
  }

  lemma NextContiguous(written: seq<Envelope>, one: seq<Envelope>, max: nat, fits: bool)
    requires max > 0 && (Contiguous(written, 0) <==> fits) && (fits ==> one != [] && Contiguous(one, |written|))
    ensures Contiguous(written + Newest(max, one), 0) <==> fits && |one| <= max
  {
    if fits {
      OneMoreContiguous(written, one, max);
    } else if Contiguous(written + Newest(max, one), 0) {
      PrefixContiguous(written, Newest(max, one));
    }
  }

  lemma OneMoreContiguous(before: seq<Envelope>, one: seq<Envelope>, max: nat)
    requires Contiguous(before, 0) && Contiguous(one, |before|) && one != [] && max > 0
    ensures Contiguous(before + Newest(max, one), 0) <==> |one| <= max
  {
    if |one| > max {
      assert (before + Newest(max, one))[|before|] == one[|one| - max];
    }
  }

  lemma PrefixContiguous(before: seq<Envelope>, more: seq<Envelope>)
    requires Contiguous(before + more, 0)
    ensures Contiguous(before, 0)
  {
    assert forall i | 0 <= i < |before| :: (before + more)[i] == before[i];
  }

  // ------------------------------------------------------------- the buffer

  /** Numbers of consecutive events, ending just below `next`. */
  predicate Tail(log: seq<Envelope>, next: nat)
  {
    |log| <= next && forall i | 0 <= i < |log| :: log[i].sequence == next - |log| + i
  }

  lemma TailAppend(max: nat, log: seq<Envelope>, next: nat, e: Envelope)
    requires Tail(log, next) && e.sequence == next
    ensures Tail(Newest(max, log + [e]), next + 1) && |Newest(max, log + [e])| <= max
  {
  }

  /** The first `n` buffered events of a request, without those numbered up to `cursor`. */
  function Above(log: seq<Envelope>, cursor: int, n: nat): seq<Envelope>
    requires n <= |log|
  {
    if n == 0 then []
    else Above(log, cursor, n - 1) + if log[n - 1].sequence > cursor then [log[n - 1]] else []
  }

  /** The elements from `from` to `n`, if any. */
  function Between(log: seq<Envelope>, from: nat, n: nat): seq<Envelope>
    requires n <= |log|
  {
    if n <= from then [] else log[from..n]
  }

  lemma BetweenStep(log: seq<Envelope>, from: nat, before: nat, n: nat)
    requires before < |log| && n == before + 1
    ensures Between(log, from, n) == Between(log, from, before) + if n > from then [log[before]] else []
  {
  }

  lemma AboveStep(log: seq<Envelope>, cursor: int, before: nat, n: nat)
    requires before < |log| && n == before + 1
    ensures Above(log, cursor, n)
            == Above(log, cursor, before) + if log[before].sequence > cursor then [log[before]] else []
  {
  }

  /** In a run of consecutive numbers, what is above a cursor is a suffix. */
  lemma {:induction false} AboveIsSuffix(log: seq<Envelope>, next: nat, cursor: int, from: nat, n: nat)
    requires Tail(log, next) && n <= |log|
    requires from <= |log| && (from > 0 ==> next - |log| + from == cursor + 1) && next - |log| + from >= cursor + 1
    ensures Above(log, cursor, n) == Between(log, from, n)
    decreases n
  {
    if n > 0 {
      AboveIsSuffix(log, next, cursor, from, n - 1);
      AboveStep(log, cursor, n - 1, n);
      BetweenStep(log, from, n - 1, n);
      assert log[n - 1].sequence == next - |log| + n - 1;
    }
  }

  lemma WholeAboveIsSuffix(log: seq<Envelope>, next: nat, cursor: int, from: nat)
    requires Tail(log, next)
    requires from <= |log| && (from > 0 ==> next - |log| + from == cursor + 1) && next - |log| + from >= cursor + 1
    ensures Above(log, cursor, |log|) == log[from..]
  {
    AboveIsSuffix(log, next, cursor, from, |log|);
    assert Between(log, from, |log|) == log[from..];
  }

  /** What is new in the buffer once `more` was added after everything below `next` was written. */
  lemma AboveTheOld(max: nat, log: seq<Envelope>, next: nat, more: seq<Envelope>, kept: seq<Envelope>)
    requires kept == Newest(max, log + more) && Tail(kept, next + |more|)
    ensures Above(kept, next - 1, |kept|) == Newest(max, more)
  {
    var from := if |more| <= |kept| then |kept| - |more| else 0;
    NewestOfBoth(max, log, more, kept, from);
    WholeAboveIsSuffix(kept, next + |more|, next - 1, from);
  }

  lemma NewestOfBoth(max: nat, log: seq<Envelope>, more: seq<Envelope>, kept: seq<Envelope>, from: nat)
    requires kept == Newest(max, log + more) && from == if |more| <= |kept| then |kept| - |more| else 0
    ensures kept[from..] == Newest(max, more)
  {
  }

  /** `EventBuffer`: per request, the next number and the newest events. */
  class EventBuffer {
    const maxEvents: nat
    var events: map<string, seq<Envelope>>
    var next: map<string, nat>

    ghost predicate Valid()
      reads this
    {
      maxEvents > 0 && forall request :: |Log(request)| <= maxEvents && Tail(Log(request), Count(request))
    }

    constructor (maxEvents: nat)
      requires maxEvents > 0
      ensures Valid() && this.maxEvents == maxEvents && forall request :: Count(request) == 0 && Log(request) == []
    {
      this.maxEvents := maxEvents;
      events, next := map[], map[];
    }

    function Log(request: string): seq<Envelope>
      reads this
    {
      if request in events then events[request] else []
    }

    function Count(request: string): nat
      reads this
    {
      if request in next then next[request] else 0
    }

    method Append(request: string, operation: string, payload: Payload)
      requires Valid()
      modifies this
      ensures Valid() && Count(request) == old(Count(request)) + 1
      ensures var event := Envelope(Some(request), operation, old(Count(request)), payload);
              Log(request) == Newest(maxEvents, old(Log(request)) + [event])
      ensures forall other | other != request :: Log(other) == old(Log(other)) && Count(other) == old(Count(other))
    {
      var event := Envelope(Some(request), operation, Count(request), payload);
      var log := Log(request) + [event];
      TailAppend(maxEvents, Log(request), Count(request), event);
      next := next[request := event.sequence + 1];
      events := events[request := Newest(maxEvents, log)];
      assert forall other | other != request :: Log(other) == old(Log(other)) && Count(other) == old(Count(other));
    }

    method After(request: string, cursor: int) returns (r: seq<Envelope>)
      ensures r == Above(Log(request), cursor, |Log(request)|)
    {
      var log := Log(request);
      r := [];
      for i := 0 to |log|
        invariant r == Above(log, cursor, i)
      {
        if log[i].sequence > cursor {
          r := r + [log[i]];
        }
      }
    }

    /** The first `k` of these envelopes have been buffered on top of `log`. */
    ghost predicate Filled(request: string, first: nat, log: seq<Envelope>, sent: seq<Envelope>, k: nat)
      reads this
    {
      k <= |sent| && Count(request) == first + k && Log(request) == Newest(maxEvents, log + sent[..k])
    }

    method BufferPart(request: string, operation: string, payload: Payload,
                      ghost first: nat, ghost log: seq<Envelope>, ghost sent: seq<Envelope>, ghost k: nat)
      requires Valid() && k < |sent| && Filled(request, first, log, sent, k)
      requires sent[k] == Envelope(Some(request), operation, first + k, payload)
      modifies this
      ensures Valid() && Filled(request, first, log, sent, k + 1)
    {
      NewestStep(maxEvents, log, sent, k);
      Append(request, operation, payload);
    }

    method BufferParts(request: string, operation: string, parts: seq<Payload>, ghost sent: seq<Envelope>)
      requires Valid() && sent == Numbered(request, operation, parts, Count(request))
      modifies this
      ensures Valid() && Count(request) == old(Count(request)) + |sent|
      ensures Log(request) == Newest(maxEvents, old(Log(request)) + sent)
    {
      ghost var first, log := Count(request), Log(request);
      assert log + sent[..0] == log;
      for k := 0 to |parts|
        invariant Valid() && Filled(request, first, log, sent, k)
      {
        BufferPart(request, operation, parts[k], first, log, sent, k);
      }
      assert sent[..|parts|] == sent;
    }

    /** `_append`: buffer one logical event, cut up if it is large. */
    method Buffer(c: Codec, request: string, e: Emit)
      requires Valid()
      modifies this
      ensures Valid()
      ensures Count(request) == old(Count(request)) + |Sent(c, request, e, old(Count(request)))|
      ensures Log(request) == Newest(maxEvents, old(Log(request)) + Sent(c, request, e, old(Count(request))))
    {
      BufferParts(request, e.operation, Parts(c, e.payload), Sent(c, request, e, Count(request)));
    }

    /** Buffer one event and write everything the response has not shown yet. */
    method Relay(c: Codec, request: string, e: Emit, cursor: int) returns (written: seq<Envelope>, shown: int)
      requires Valid() && cursor == Count(request) - 1
      modifies this
      ensures Valid() && shown == Count(request) - 1
      ensures Count(request) == old(Count(request)) + |Sent(c, request, e, old(Count(request)))|
      ensures written == Newest(maxEvents, Sent(c, request, e, old(Count(request))))
    {
      ghost var log, sent := Log(request), Sent(c, request, e, Count(request));
      Buffer(c, request, e);
      written, shown := ShowNew(request, cursor, log, sent);
    }

    /** Write what is above the cursor. */
    method ShowNew(request: string, cursor: int, ghost log: seq<Envelope>, ghost sent: seq<Envelope>)
        returns (written: seq<Envelope>, shown: int)
      requires Valid() && sent != [] && cursor >= -1 && Count(request) == cursor + 1 + |sent|
      requires Log(request) == Newest(maxEvents, log + sent)
      ensures written == Newest(maxEvents, sent) && shown == Count(request) - 1
    {
      AboveTheOld(maxEvents, log, cursor + 1, sent, Log(request));
      written := After(request, cursor);
      assert Tail(Log(request), Count(request));
      assert written[|written| - 1] == Log(request)[|Log(request)| - 1];
      shown := written[|written| - 1].sequence;
    }
  }

  // --------------------------------------------------------------- live relay

  /** An attempt that failed before its first event. */
  predicate Barren(a: Attempt)
  {
    a.failed && a.emits == []
  }

  /**
   The attempt a response shows, of the permitted ones: every earlier one failed without
   yielding anything, and it did not, or none may follow.
   */
  predicate Shows(attempts: seq<Attempt>, t: nat)
  {
    t < |attempts| && (forall i | 0 <= i < t :: Barren(attempts[i])) && (Barren(attempts[t]) ==> t == |attempts| - 1)
  }

  /** The events of one attempt, closed by one error event if it failed. */
  function ShownEvents(a: Attempt, error: Emit): seq<Emit>
  {
    if a.failed then a.emits + [error] else a.emits
  }

  /** The last event shown is the error exactly after a failure; everything before it is what the backend yielded. */
  lemma FailureEndsInOneError(a: Attempt, error: Emit)
    ensures ShownEvents(a, error)[..|a.emits|] == a.emits
    ensures ShownEvents(a, error)[|a.emits|..] == if a.failed then [error] else []
  {
  }

  /** The first `n` events have been buffered and written. */
  ghost predicate Relayed(buffer: EventBuffer, send: Sender, request: string, emits: seq<Emit>, n: nat,
                          written: seq<Envelope>, shown: int)
    reads buffer
  {
    && n <= |emits| && buffer.Count(request) == |SentUpTo(send, emits, n)| && shown == buffer.Count(request) - 1
    && written == Written(send, buffer.maxEvents, emits, n)
  }

  /** Relay one event, in terms of the request's sender. */
  method RelayVia(buffer: EventBuffer, c: Codec, ghost send: Sender, request: string, e: Emit, cursor: int)
      returns (written: seq<Envelope>, shown: int)
    requires send == SenderOf(c, request) && buffer.Valid() && cursor == buffer.Count(request) - 1
    modifies buffer
    ensures buffer.Valid() && shown == buffer.Count(request) - 1
    ensures buffer.Count(request) == old(buffer.Count(request)) + |send(e, old(buffer.Count(request)))|
    ensures written == Newest(buffer.maxEvents, send(e, old(buffer.Count(request))))
  {
    assert send(e, cursor + 1) == Sent(c, request, e, cursor + 1);
    written, shown := buffer.Relay(c, request, e, cursor);
  }

  method RelayNext(buffer: EventBuffer, c: Codec, ghost send: Sender, request: string, emits: seq<Emit>, n: nat,
                   before: seq<Envelope>, cursor: int) returns (written: seq<Envelope>, shown: int)
    requires send == SenderOf(c, request) && buffer.Valid() && n < |emits|
    requires Relayed(buffer, send, request, emits, n, before, cursor)
    modifies buffer
    ensures buffer.Valid() && Relayed(buffer, send, request, emits, n + 1, written, shown)
  {
    var more;
    more, shown := RelayVia(buffer, c, send, request, emits[n], cursor);
    written := before + more;
  }

  /** Relay the events of one attempt as they come. */
  method RelayAttempt(buffer: EventBuffer, c: Codec, ghost send: Sender, request: string, emits: seq<Emit>, cursor: int)
      returns (written: seq<Envelope>, shown: int)
    requires send == SenderOf(c, request) && buffer.Valid() && buffer.Count(request) == 0 && cursor == -1
    modifies buffer
    ensures buffer.Valid() && Relayed(buffer, send, request, emits, |emits|, written, shown)
  {
    written, shown := [], cursor;
    for n := 0 to |emits|
      invariant buffer.Valid() && Relayed(buffer, send, request, emits, n, written, shown)
    {
      written, shown := RelayNext(buffer, c, send, request, emits, n, written, shown);
    }
  }

  /** Two lists of events come out alike up to `n`. */
  ghost predicate Alike(send: Sender, max: nat, a: seq<Emit>, b: seq<Emit>, n: nat)
  {
    && n <= |a| && n <= |b|
    && SentUpTo(send, b, n) == SentUpTo(send, a, n) && Written(send, max, b, n) == Written(send, max, a, n)
  }

  lemma AlikeStep(send: Sender, max: nat, a: seq<Emit>, b: seq<Emit>, n: nat)
    requires n < |a| && n < |b| && a[n] == b[n] && Alike(send, max, a, b, n)
    ensures Alike(send, max, a, b, n + 1)
  {
  }

  /** What was sent and written for a prefix does not depend on what follows. */
  lemma {:induction false} PrefixAlike(send: Sender, max: nat, a: seq<Emit>, b: seq<Emit>, n: nat)
    requires n <= |a| && n <= |b| && forall i | 0 <= i < n :: a[i] == b[i]
    ensures Alike(send, max, a, b, n)
    decreases n
  {
    if n > 0 {
      PrefixAlike(send, max, a, b, n - 1);
      AlikeStep(send, max, a, b, n - 1);
    }
  }

  lemma WrittenWithError(send: Sender, max: nat, emits: seq<Emit>, error: Emit)
    ensures Written(send, max, emits + [error], |emits| + 1)
            == Written(send, max, emits, |emits|) + Newest(max, send(error, |SentUpTo(send, emits, |emits|)|))
  {
    PrefixAlike(send, max, emits, emits + [error], |emits|);
  }

  /** Close a failed attempt with one error event. */
  method CloseWithError(buffer: EventBuffer, c: Codec, ghost send: Sender, request: string, ghost emits: seq<Emit>,
                        error: Emit, before: seq<Envelope>, cursor: int) returns (written: seq<Envelope>)
    requires send == SenderOf(c, request) && buffer.Valid()
    requires Relayed(buffer, send, request, emits, |emits|, before, cursor)
    modifies buffer
    ensures written == Written(send, buffer.maxEvents, emits + [error], |emits| + 1)
  {
    WrittenWithError(send, buffer.maxEvents, emits, error);
    var more, _ := RelayVia(buffer, c, send, request, error, cursor);
    written := before + more;
  }

  lemma {:induction false} EachSendsSomething(send: Sender, emits: seq<Emit>, n: nat)
    requires n <= |emits| && WellNumbered(send)
    ensures |SentUpTo(send, emits, n)| >= n
    decreases n
  {
    if n > 0 { EachSendsSomething(send, emits, n - 1); }
  }

  lemma SomethingIsShown(c: Codec, request: string, emits: seq<Emit>)
    ensures |SentUpTo(SenderOf(c, request), emits, |emits|)| >= |emits|
  {
    SenderNumbersWell(c, request);
    EachSendsSomething(SenderOf(c, request), emits, |emits|);
  }

  /**
   `_stream_live` without a Last-Event-ID: whatever the pattern of transient failures, the
   response shows the events of one attempt, then at most one error.
   */
  method StreamLive(buffer: EventBuffer, c: Codec, request: string, attempts: seq<Attempt>, error: Emit)
      returns (written: seq<Envelope>, tries: nat)
    requires buffer.Valid() && buffer.Count(request) == 0 && attempts != []
    modifies buffer
    ensures 1 <= tries <= |attempts| && Shows(attempts, tries - 1)
    ensures var events := ShownEvents(attempts[tries - 1], error);
            written == Written(SenderOf(c, request), buffer.maxEvents, events, |events|)
  {
    var shown := false;
    written, tries := [], 0;
    while !shown
      invariant Retrying(buffer, c, request, attempts, error, tries, written, shown)
      decreases !shown, |attempts| - tries
    {
      written, shown := Try(buffer, c, request, attempts[tries], error, tries == |attempts| - 1);
      tries := tries + 1;
    }
  }

  /** Between two attempts: all so far were barren, or the last one is shown. */
  ghost predicate Retrying(buffer: EventBuffer, c: Codec, request: string, attempts: seq<Attempt>, error: Emit,
                           tries: nat, written: seq<Envelope>, shown: bool)
    reads buffer
  {
    if shown then
      0 < tries && Shows(attempts, tries - 1)
      && Displays(c, request, buffer.maxEvents, attempts[tries - 1], error, written)
    else
      && tries < |attempts| && (forall i | 0 <= i < tries :: Barren(attempts[i]))
      && buffer.Valid() && buffer.Count(request) == 0
  }

  /** What one attempt is shown as. */
  ghost predicate Displays(c: Codec, request: string, max: nat, a: Attempt, error: Emit, written: seq<Envelope>)
  {
    var events := ShownEvents(a, error);
    written == Written(SenderOf(c, request), max, events, |events|)
  }

  /** One attempt: it is shown unless it was barren and another one may follow. */
  method Try(buffer: EventBuffer, c: Codec, request: string, attempt: Attempt, error: Emit, last: bool)
      returns (written: seq<Envelope>, shown: bool)
    requires buffer.Valid() && buffer.Count(request) == 0
    modifies buffer
    ensures shown <==> !Barren(attempt) || last
    ensures shown ==> Displays(c, request, buffer.maxEvents, attempt, error, written)
    ensures !shown ==> buffer.Valid() && buffer.Count(request) == 0
  {
    ghost var send := SenderOf(c, request);
    var cursor;
    written, cursor := RelayAttempt(buffer, c, send, request, attempt.emits, -1);
    SomethingIsShown(c, request, attempt.emits);
    shown := !attempt.failed || cursor > -1 || last;
    if attempt.failed && shown {
      written := CloseWithError(buffer, c, send, request, attempt.emits, error, written, cursor);
    }
  }
}
