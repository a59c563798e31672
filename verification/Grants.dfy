/**
 `LambdaPersistenceBroker`: chunk grants fetched ahead in batches stand in for one
 broker call per chunk, and cost one call for every 127 chunks announced.
 */
module Grants {
  import opened Base
  import opened Manifest

  datatype Operation = Get | Put | Head

  /** What the broker hands out: where to send the request, with which headers, and until when. */
  datatype Pass = Pass(url: string, headers: map<string, string>, expiresAt: int)

  /** A pass under the name the broker gave it. */
  datatype Grant = Grant(digest: Digest, operation: Operation, pass: Pass)

  type Key = (Digest, Operation)

  /** Seconds a cached grant must still be good for. */
  const MARGIN := 60

  const BATCH: nat := 128

  /** One item of a batch answer; None is an item that is not a named grant. */
  type Item = Option<(Digest, Pass)>

  /** What the broker function answers to a batch call. */
  datatype Reply = Refused | Unsupported | Items(items: seq<Item>)

  datatype Failure = Refusal | Authorization

  /** Every stored grant is for the key it is stored under. */
  predicate KeyedRight(grants: map<Key, Grant>)
  {
    forall k | k in grants :: grants[k].digest == k.0 && grants[k].operation == k.1
  }

  predicate Usable(grants: map<Key, Grant>, key: Key, now: int)
  {
    key in grants && grants[key].pass.expiresAt - now >= MARGIN
  }

  /** The answer grants every name asked for, for long enough. */
  predicate Serves(reply: Reply, names: seq<Digest>, until: int)
  {
    && reply.Items? && |reply.items| == |names|
    && (forall i | 0 <= i < |names| ::
          && reply.items[i].Some? && reply.items[i].value.0 == names[i]
          && reply.items[i].value.1.expiresAt >= until + MARGIN)
  }

  ghost predicate ServesAll(serve: seq<Digest> -> Reply, until: int)
  {
    forall names :: Serves(serve(names), names, until)
  }

  /** One of the first `n` items is this grant. */
  predicate Granted(items: seq<Item>, n: nat, operation: Operation, g: Grant)
    requires n <= |items|
  {
    exists i :: 0 <= i < n && items[i].Some? && g == Grant(items[i].value.0, operation, items[i].value.1)
  }

  /** The broker offers this grant in answer to some batch. */
  ghost predicate Offered(serve: seq<Digest> -> Reply, operation: Operation, g: Grant)
  {
    exists names :: serve(names).Items? && Granted(serve(names).items, |serve(names).items|, operation, g)
  }

  /** Each grant was cached before, url and headers included, or is offered. */
  ghost predicate AllFrom(grants: map<Key, Grant>, before: map<Key, Grant>, serve: seq<Digest> -> Reply,
                          operation: Operation)
  {
    forall k | k in grants :: Sourced(before, serve, operation, k, grants[k])
  }

  ghost predicate Sourced(before: map<Key, Grant>, serve: seq<Digest> -> Reply, operation: Operation, k: Key, g: Grant)
  {
    (k in before && g == before[k]) || Offered(serve, operation, g)
  }

  lemma SourcedBefore(before: map<Key, Grant>, middle: map<Key, Grant>, serve: seq<Digest> -> Reply,
                      operation: Operation, k: Key, g: Grant)
    requires AllFrom(middle, before, serve, operation) && Sourced(middle, serve, operation, k, g)
    ensures Sourced(before, serve, operation, k, g)
  {
  }

  lemma AllFromBefore(before: map<Key, Grant>, middle: map<Key, Grant>, after: map<Key, Grant>,
                      serve: seq<Digest> -> Reply, operation: Operation)
    requires AllFrom(middle, before, serve, operation) && AllFrom(after, middle, serve, operation)
    ensures AllFrom(after, before, serve, operation)
  {
    forall k | k in after
      ensures Sourced(before, serve, operation, k, after[k])
    {
      SourcedBefore(before, middle, serve, operation, k, after[k]);
    }
  }

  /** Every cached grant is good until then. */
  predicate LongLived(grants: map<Key, Grant>, until: int)
  {
    forall k | k in grants :: grants[k].pass.expiresAt >= until + MARGIN
  }

  /** The names of a batch once so many announced chunks are popped: each of those is among them or granted. */
  predicate Picked(digest: Digest, operation: Operation, grants: map<Key, Grant>, announced: seq<Digest>, popped: nat,
                   names: seq<Digest>)
    requires popped <= |announced|
  {
    && 0 < |names| <= BATCH && names[0] == digest && |names| <= popped + 1
    && (forall d | d in announced[..popped] :: d in names || (d, operation) in grants)
    && (forall i | 0 < i < |names| ::
          names[i] != digest && (names[i], operation) !in grants && names[i] in announced)
  }

  lemma PickOne(digest: Digest, operation: Operation, grants: map<Key, Grant>, announced: seq<Digest>, popped: nat,
                names: seq<Digest>, names': seq<Digest>)
    requires popped < |announced| && Picked(digest, operation, grants, announced, popped, names) && |names| < BATCH
    requires || (names' == names + [announced[popped]] && announced[popped] != digest
                 && (announced[popped], operation) !in grants)
             || (names' == names && (announced[popped] == digest || (announced[popped], operation) in grants))
    ensures Picked(digest, operation, grants, announced, popped + 1, names')
  {
    assert announced[..popped + 1] == announced[..popped] + [announced[popped]];
  }

  class GrantBroker {
    var grants: map<Key, Grant>
    /** Announced chunks not yet asked for in a batch, per operation. */
    var wanted: map<Operation, seq<Digest>>
    var batchSupported: bool
    ghost var batches: nat
    ghost var singles: nat

    ghost predicate Valid()
      reads this
    {
      KeyedRight(grants)
    }

    constructor ()
      ensures Valid() && grants == map[] && wanted == map[] && batchSupported && batches == 0 && singles == 0
    {
      grants, wanted, batchSupported, batches, singles := map[], map[], true, 0, 0;
    }

    function Queue(operation: Operation): seq<Digest>
      reads this
    {
      if operation in wanted then wanted[operation] else []
    }

    method Prefetch(digests: seq<Digest>, operation: Operation)
      modifies this`wanted
      ensures operation != Head && batchSupported ==> Queue(operation) == old(Queue(operation)) + digests
      ensures operation == Head || !batchSupported ==> wanted == old(wanted)
      ensures forall other | other != operation :: Queue(other) == old(Queue(other))
    {
      if operation == Head {
        return;
      }
      if batchSupported {
        wanted := wanted[operation := Queue(operation) + digests];
      }
    }

    /** Take a cached grant out, unless it is about to expire. */
    method TakeGrant(digest: Digest, operation: Operation, now: int) returns (r: Option<Grant>)
      requires Valid()
      modifies this`grants
      ensures Valid() && grants == old(grants) - {(digest, operation)}
      ensures r.Some? <==> Usable(old(grants), (digest, operation), now)
      ensures r.Some? ==> r.value == old(grants)[(digest, operation)]
    {
      if (digest, operation) !in grants {
        return None;
      }
      var grant := grants[(digest, operation)];
      grants := grants - {(digest, operation)};
      r := if grant.pass.expiresAt - now < MARGIN then None else Some(grant);
    }

    /** Pop announced chunks until the batch is full, skipping what is granted already. */
    method PopNames(digest: Digest, operation: Operation) returns (names: seq<Digest>)
      modifies this`wanted
      ensures 0 < |names| <= BATCH && names[0] == digest
      ensures forall i | 0 < i < |names| :: names[i] != digest && (names[i], operation) !in grants
      ensures forall i | 0 < i < |names| :: names[i] in old(Queue(operation))
      ensures Queue(operation) == [] || |old(Queue(operation))| - |Queue(operation)| >= BATCH - 1
      ensures |Queue(operation)| <= |old(Queue(operation))|
      ensures old(Queue(operation)) != [] ==> |Queue(operation)| < |old(Queue(operation))|
      ensures forall d | d in old(Queue(operation)) :: d in Queue(operation) || d in names || (d, operation) in grants
      ensures forall other | other != operation :: Queue(other) == old(Queue(other))
    {
      names := [digest];
      var queue := Queue(operation);
      ghost var announced, popped := queue, 0;
      while queue != [] && |names| < BATCH
        invariant popped <= |announced| && queue == announced[popped..] && wanted == old(wanted)
        invariant Picked(digest, operation, grants, announced, popped, names)
        decreases |queue|
      {
        var candidate := queue[0];
        queue := queue[1..];
        if candidate != digest && (candidate, operation) !in grants {
          PickOne(digest, operation, grants, announced, popped, names, names + [candidate]);
          names := names + [candidate];
        } else {
          PickOne(digest, operation, grants, announced, popped, names, names);
        }
        popped := popped + 1;
      }
      wanted := wanted[operation := queue];
      assert announced == announced[..popped] + queue;
    }

    /** Store the granted items, up to the first that is malformed. */
    method StoreItems(items: seq<Item>, operation: Operation) returns (ok: bool)
      requires Valid()
      modifies this`grants
      ensures Valid() && ok == (forall i | 0 <= i < |items| :: items[i].Some?)
      ensures forall k | k in old(grants) :: k in grants
      ensures ok ==> forall i | 0 <= i < |items| :: (items[i].value.0, operation) in grants
      ensures forall k | k in grants ::
                (k in old(grants) && grants[k] == old(grants)[k]) || Granted(items, |items|, operation, grants[k])
    {
      for i := 0 to |items|
        invariant Valid() && forall j | 0 <= j < i :: items[j].Some?
        invariant forall k | k in old(grants) :: k in grants
        invariant forall j | 0 <= j < i :: (items[j].value.0, operation) in grants
        invariant forall k | k in grants ::
                    (k in old(grants) && grants[k] == old(grants)[k]) || Granted(items, i, operation, grants[k])
      {
        if items[i].None? {
          return false;
        }
        var (name, pass) := items[i].value;
        grants := grants[(name, operation) := Grant(name, operation, pass)];
      }
      ok := true;
    }

    /** Fetch this chunk's grant and those of the next announced chunks in one call. */
    method FetchBatch(digest: Digest, operation: Operation, serve: seq<Digest> -> Reply) returns (r: Option<Failure>)
      requires Valid()
      modifies this
      ensures Valid() && batches == old(batches) + 1 && singles == old(singles)
      ensures AllFrom(grants, old(grants), serve, operation)
      ensures (forall names :: serve(names).Refused?) ==> r == Some(Refusal) && grants == old(grants)
      ensures (forall names :: serve(names).Unsupported?) ==>
                r == None && grants == old(grants) && wanted == map[] && !batchSupported
      ensures forall until: int | LongLived(old(grants), until) && ServesAll(serve, until) ::
                && r.None? && batchSupported == old(batchSupported)
                && Supplied(digest, operation, old(Queue(operation)), old(grants).Keys, until)
      ensures Queue(operation) == [] || |old(Queue(operation))| - |Queue(operation)| >= BATCH - 1
      ensures |Queue(operation)| <= |old(Queue(operation))|
      ensures old(Queue(operation)) != [] ==> |Queue(operation)| < |old(Queue(operation))|
    {
      var names := PopNames(digest, operation);
      batches := batches + 1;
      r := Settle(serve(names), names, operation);
    }

    /** What the answer to a batch does. */
    method Settle(reply: Reply, ghost names: seq<Digest>, operation: Operation) returns (r: Option<Failure>)
      requires Valid()
      modifies this`grants, this`wanted, this`batchSupported
      ensures Valid() && (wanted == old(wanted) || wanted == map[])
      ensures forall k | k in grants ::
                || (k in old(grants) && grants[k] == old(grants)[k])
                || (reply.Items? && Granted(reply.items, |reply.items|, operation, grants[k]))
      // A refusal and a malformed answer are errors; a broker without batches is remembered and asked no more.
      ensures reply.Refused? ==>
                && r == Some(Refusal) && grants == old(grants) && wanted == old(wanted)
                && batchSupported == old(batchSupported)
      ensures reply.Unsupported? ==> r == None && grants == old(grants) && wanted == map[] && !batchSupported
      ensures reply.Items? ==>
                && wanted == old(wanted) && batchSupported == old(batchSupported)
                && r == if exists i :: 0 <= i < |reply.items| && reply.items[i].None? then Some(Authorization) else None
      ensures forall until: int | LongLived(old(grants), until) && Serves(reply, names, until) ::
                && r.None? && batchSupported == old(batchSupported) && wanted == old(wanted)
                && LongLived(grants, until) && old(grants).Keys <= grants.Keys
                && (forall d | d in names :: (d, operation) in grants)
    {
      match reply {
        case Refused => return Some(Refusal);
        case Unsupported =>
          batchSupported, wanted := false, map[];
          return None;
        case Items(items) =>
          var ok := StoreItems(items, operation);
          return if ok then None else Some(Authorization);
      }
    }

    /** After a batch: the chunk has its grant, and every chunk announced before is granted or still queued. */
    ghost predicate Supplied(digest: Digest, operation: Operation, queue: seq<Digest>, before: set<Key>, until: int)
      reads this
    {
      && LongLived(grants, until) && (digest, operation) in grants && before <= grants.Keys
      && (forall d | d in queue :: d in Queue(operation) || (d, operation) in grants)
    }

    /** Announced and not yet handed out: in the queue or in the cache. */
    ghost predicate Expected(d: Digest, operation: Operation)
      reads this
    {
      d in Queue(operation) || (d, operation) in grants
    }

    /** Nothing stands in the way of batches until then. */
    ghost predicate Smooth(serve: seq<Digest> -> Reply, until: int)
      reads this
    {
      Valid() && batchSupported && LongLived(grants, until) && ServesAll(serve, until)
    }

    /** What a call may do to the queue: leave it, or spend one batch on 127 chunks or on all that are left. */
    twostate predicate Spends(operation: Operation)
      reads this
    {
      || (batches == old(batches) && Queue(operation) == old(Queue(operation)))
      || (&& batches == old(batches) + 1 && |Queue(operation)| < |old(Queue(operation))|
          && (Queue(operation) == [] || |old(Queue(operation))| - |Queue(operation)| >= BATCH - 1))
    }

    /** A grant from the cache, or from a batch if chunks of this operation are announced. */
    method CachedOrBatched(digest: Digest, operation: Operation, now: int, serve: seq<Digest> -> Reply)
        returns (r: Result<Option<Grant>, Failure>)
      requires Valid()
      modifies this
      ensures Valid() && Spends(operation) && singles == old(singles)
      ensures AllFrom(grants, old(grants), serve, operation)
      ensures r.Ok? && r.value.Some? ==> Sourced(old(grants), serve, operation, (digest, operation), r.value.value)
      ensures var cached := Usable(old(grants), (digest, operation), now);
              var batched := !cached && old(batchSupported) && old(Queue(operation)) != [];
              && (cached ==> r == Ok(Some(old(grants)[(digest, operation)])))
              && (batched && (forall names :: serve(names).Refused?) ==> r == Err(Refusal))
              && (batched && (forall names :: serve(names).Unsupported?) ==> r == Ok(None) && !batchSupported)
              && (!cached && !batched ==> r == Ok(None))
      ensures r.Ok? && r.value.Some? ==>
                var g := r.value.value;
                g.digest == digest && g.operation == operation && g.pass.expiresAt - now >= MARGIN
      ensures forall until: int | old(Smooth(serve, until) && Expected(digest, operation)) && now <= until ::
                && r.Ok? && r.value.Some? && Smooth(serve, until)
                && (forall d | d != digest && old(Expected(d, operation)) :: Expected(d, operation))
    {
      var grant := TakeGrant(digest, operation, now);
      assert forall until: int | old(Smooth(serve, until)) :: Smooth(serve, until);
      assert forall d | d != digest && old(Expected(d, operation)) :: Expected(d, operation);
      r := Ok(grant);
      if grant.None? && batchSupported && Queue(operation) != [] {
        r := Batched(digest, operation, now, serve);
      }
    }

    /** Fetch a batch, then take this chunk's grant out of the cache. */
    method Batched(digest: Digest, operation: Operation, now: int, serve: seq<Digest> -> Reply)
        returns (r: Result<Option<Grant>, Failure>)
      requires Valid() && Queue(operation) != []
      modifies this
      ensures Valid() && batches == old(batches) + 1 && singles == old(singles) && Spends(operation)
      ensures (forall names :: serve(names).Refused?) ==> r == Err(Refusal)
      ensures (forall names :: serve(names).Unsupported?) && !Usable(old(grants), (digest, operation), now) ==>
                r == Ok(None) && !batchSupported
      ensures AllFrom(grants, old(grants), serve, operation)
      ensures r.Ok? && r.value.Some? ==>
                var g := r.value.value;
                && g.digest == digest && g.operation == operation && g.pass.expiresAt - now >= MARGIN
                && Sourced(old(grants), serve, operation, (digest, operation), g)
      ensures forall until: int | old(Smooth(serve, until)) && now <= until ::
                && r.Ok? && r.value.Some? && Smooth(serve, until)
                && (forall d | d != digest && old(Expected(d, operation)) :: Expected(d, operation))
    {
      var failure := FetchBatch(digest, operation, serve);
      if failure.Some? {
        return Err(failure.value);
      }
      var grant := TakeGrant(digest, operation, now);
      r := Ok(grant);
    }

    /** A grant for exactly this chunk and operation, from the cache, a batch, or a call of its own. */
    method PresignChunk(digest: Digest, operation: Operation, now: int,
                        serve: seq<Digest> -> Reply, single: Digest -> Result<Pass, Failure>)
        returns (r: Result<Grant, Failure>)
      requires Valid()
      modifies this
      ensures Valid() && Spends(operation) && AllFrom(grants, old(grants), serve, operation)
      // A refused batch is an error; without batches the chunk is presigned on its own.
      ensures var cached := Usable(old(grants), (digest, operation), now);
              var batched := !cached && old(batchSupported) && old(Queue(operation)) != [];
              && (cached ==> r == Ok(old(grants)[(digest, operation)]) && singles == old(singles))
              && (batched && (forall names :: serve(names).Refused?) ==> r == Err(Refusal) && singles == old(singles))
              && (batched && (forall names :: serve(names).Unsupported?) ==> !batchSupported)
              && (!cached && (!batched || (forall names :: serve(names).Unsupported?)) ==>
                    && singles == old(singles) + 1
                    && r == if single(digest).Ok? then Ok(Grant(digest, operation, single(digest).value))
                            else Err(single(digest).error))
      // The pass is the broker's own, for this name: cached earlier, offered in a batch, or given for this call.
      ensures r.Ok? ==>
                || Sourced(old(grants), serve, operation, (digest, operation), r.value)
                || (singles == old(singles) + 1 && single(digest) == Ok(r.value.pass))
      ensures r.Ok? ==> r.value.digest == digest && r.value.operation == operation
      ensures r.Ok? && singles == old(singles) ==> r.value.pass.expiresAt - now >= MARGIN
      ensures forall until: int | old(Smooth(serve, until) && Expected(digest, operation)) && now <= until ::
                && r.Ok? && singles == old(singles) && Smooth(serve, until)
                && (forall d | d != digest && old(Expected(d, operation)) :: Expected(d, operation))
    {
      var grant := CachedOrBatched(digest, operation, now, serve);
      if grant.Err? {
        return Err(grant.error);
      }
      if grant.value.Some? {
        return Ok(grant.value.value);
      }
      singles := singles + 1;
      var pass := single(digest);
      if pass.Err? {
        return Err(pass.error);
      }
      r := Ok(Grant(digest, operation, pass.value));
    }

    /**
     Every announced chunk asked for once, in any order, before any grant runs out: nothing
     is presigned on its own, and there is at most one batch call for every 127 chunks.
     */
    method PresignAll(order: seq<Digest>, operation: Operation, times: seq<int>, until: int,
                      serve: seq<Digest> -> Reply, single: Digest -> Result<Pass, Failure>) returns (r: seq<Grant>)
      requires Smooth(serve, until) && |times| == |order| && forall i | 0 <= i < |times| :: times[i] <= until
      requires forall i | 0 <= i < |order| :: order[i] in Queue(operation)
      requires forall i, j | 0 <= i < j < |order| :: order[i] != order[j]
      modifies this
      ensures |r| == |order| && forall i | 0 <= i < |r| :: r[i].digest == order[i] && r[i].operation == operation
      ensures forall i | 0 <= i < |r| :: Sourced(old(grants), serve, operation, (order[i], operation), r[i])
      ensures singles == old(singles)
      ensures (batches - old(batches)) * (BATCH - 1) <= |old(Queue(operation))| + (BATCH - 2)
    {
      ghost var held, was := grants, |Queue(operation)|;
      r := [];
      for n := 0 to |order|
        invariant Smooth(serve, until) && singles == old(singles) && AllFrom(grants, held, serve, operation)
        invariant |r| == n && forall i | 0 <= i < n :: Served(held, serve, operation, order[i], r[i])
        invariant forall i | n <= i < |order| :: Expected(order[i], operation)
        invariant Thrifty(batches - old(batches), was, |Queue(operation)|)
      {
        ghost var spent, left := batches - old(batches), |Queue(operation)|;
        var one := PresignNext(order[n], operation, times[n], until, serve, single, held);
        ThriftyStep(spent, was, left, batches - old(batches), |Queue(operation)|);
        r := r + [one];
      }
    }

    /** One of the announced chunks. */
    method PresignNext(digest: Digest, operation: Operation, now: int, until: int, serve: seq<Digest> -> Reply,
                       single: Digest -> Result<Pass, Failure>, ghost held: map<Key, Grant>) returns (g: Grant)
      requires Smooth(serve, until) && Expected(digest, operation) && now <= until
      requires AllFrom(grants, held, serve, operation)
      modifies this
      ensures Smooth(serve, until) && singles == old(singles) && AllFrom(grants, held, serve, operation)
      ensures Served(held, serve, operation, digest, g) && Spends(operation)
      ensures forall d | d != digest && old(Expected(d, operation)) :: Expected(d, operation)
    {
      var one := PresignChunk(digest, operation, now, serve, single);
      g := one.value;
      SourcedBefore(held, old(grants), serve, operation, (digest, operation), g);
      AllFromBefore(held, old(grants), grants, serve, operation);
    }
  }

  /** The chunk was served with a grant of its own. */
  ghost predicate Served(held: map<Key, Grant>, serve: seq<Digest> -> Reply, operation: Operation, digest: Digest,
                         g: Grant)
  {
    g.digest == digest && g.operation == operation && Sourced(held, serve, operation, (digest, operation), g)
  }

  /** So many batches for what is gone from the queue: 127 chunks each, but for the one that empties it. */
  predicate Thrifty(spent: int, was: nat, left: nat)
  {
    && left <= was && spent * (BATCH - 1) <= was - left + (BATCH - 2)
    && (left > 0 ==> spent * (BATCH - 1) <= was - left)
  }

  lemma ThriftyStep(spent: int, was: nat, left: nat, spent': int, left': nat)
    requires Thrifty(spent, was, left)
    requires || (spent' == spent && left' == left)
             || (spent' == spent + 1 && left' < left && (left' == 0 || left - left' >= BATCH - 1))
    ensures Thrifty(spent', was, left')
  {
  }
}
