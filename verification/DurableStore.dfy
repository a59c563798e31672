/**
 `BrokeredCheckpointStore`: chunks behind a cached index, write-once manifests
 and commits, over a network that may lose any request or any reply.
 */
module DurableStore {
  import opened Base
  import opened Chunking
  import opened Manifest

  /** What the network does to one storage operation. */
  datatype Fault = Fine | LostRequest | LostReply

  /** An encrypted manifest object. */
  datatype Sealed = Sealed(digest: Digest, entries: seq<Entry>)

  predicate RefersOnlyTo(entries: seq<Entry>, chunks: set<Digest>)
  {
    forall e, d | e in entries && d in e.chunks :: d in chunks
  }

  /** The chunks a manifest names. */
  function Named(entries: seq<Entry>): set<Digest> { set e, d | e in entries && d in e.chunks :: d }

  lemma NamedIsReferred(entries: seq<Entry>, chunks: set<Digest>)
    ensures Named(entries) <= chunks <==> RefersOnlyTo(entries, chunks)
  {
    if Named(entries) <= chunks {
      forall e, d | e in entries && d in e.chunks
        ensures d in chunks
      {
        assert d in Named(entries);
      }
    }
  }

  /** Every committed generation has its manifest, with the committed digest, and every chunk that names. */
  predicate Complete(chunks: set<Digest>, manifests: map<nat, Sealed>, commits: map<nat, Digest>)
  {
    forall g | g in commits ::
      && g in manifests && manifests[g].digest == commits[g]
      && RefersOnlyTo(manifests[g].entries, chunks)
  }

  /** The manifest is there under this digest and the number is above every commit. */
  predicate Committable(generation: nat, digest: Digest, manifests: map<nat, Sealed>, commits: map<nat, Digest>)
  {
    && generation in manifests && manifests[generation].digest == digest
    && forall g | g in commits :: g < generation
  }

  ghost predicate Grows<K, V>(before: map<K, V>, after: map<K, V>)
  {
    forall k | k in before :: k in after && after[k] == before[k]
  }

  /** Each chunk was there before with this body, or its body is one of these. */
  predicate OnlyAdds(before: map<Digest, Bytes>, after: map<Digest, Bytes>, bodies: set<Bytes>)
  {
    forall d | d in after :: (d in before && after[d] == before[d]) || after[d] in bodies
  }

  class Store {
    const sha: Bytes -> Digest
    /** The checkpoint writer lists the chunk prefix once and caches it. */
    const indexed: bool
    var chunks: map<Digest, Bytes>
    var manifests: map<nat, Sealed>
    var commits: map<nat, Digest>
    var known: Option<set<Digest>>
    var faults: seq<Fault>
    /** Every chunk ever stored and every generation ever committed, with the manifest it was committed with. */
    ghost var stored: set<Digest>
    ghost var ever: map<nat, Sealed>

    ghost predicate Valid()
      reads this
    {
      && (known.Some? ==> indexed && known.value <= chunks.Keys)
      && chunks.Keys <= stored && (forall g | g in commits :: g in ever && ever[g].digest == commits[g])
      && (forall d | d in chunks :: sha(chunks[d]) == d)
      && (forall g | g in manifests :: g > 0)
      && (forall g | g in commits :: g > 0)
    }

    constructor (sha: Bytes -> Digest, indexed: bool, faults: seq<Fault>)
      ensures Valid() && Complete(chunks.Keys, manifests, commits)
      ensures chunks == map[] && manifests == map[] && commits == map[] && known == None
      ensures this.sha == sha && this.indexed == indexed && this.faults == faults && stored == {} && ever == map[]
    {
      this.sha := sha;
      this.indexed := indexed;
      this.faults := faults;
      chunks, manifests, commits, known := map[], map[], map[], None;
      stored, ever := {}, map[];
    }

    method Transmit() returns (fault: Fault)
      modifies this`faults
      ensures old(faults) == [] ==> fault == Fine && faults == []
      ensures old(faults) != [] ==> fault == old(faults)[0] && faults == old(faults)[1..]
    {
      if faults == [] {
        return Fine;
      }
      fault := faults[0];
      faults := faults[1..];
    }

    /** A container that lost its process keeps nothing but what S3 holds. */
    method Restart()
      requires Valid()
      modifies this`known
      ensures Valid() && known == None
    {
      known := None;
    }

    method HasChunk(digest: Digest) returns (r: Result<bool, string>)
      requires Valid()
      modifies this`known, this`faults
      ensures Valid()
      ensures old(known).Some? ==> known == old(known)
      ensures r.Ok? && r.value ==> digest in chunks
      ensures r.Ok? ==> r.value == (if known.Some? then digest in known.value else digest in chunks)
      ensures old(faults) == [] ==> faults == [] && r.Ok?
    {
      if indexed && known.None? {
        var listing := Transmit();
        if listing.Fine? {
          known := Some(chunks.Keys);
        }
      }
      if known.Some? {
        return Ok(digest in known.value);
      }
      var asked := Transmit();
      if asked.Fine? {
        r := Ok(digest in chunks);
      } else {
        r := Err("Persistence object listing is invalid.");
      }
    }

    method UploadChunk(digest: Digest, body: Bytes) returns (r: Result<(), string>)
      requires Valid() && sha(body) == digest
      modifies this`chunks, this`known, this`faults, this`stored
      ensures Valid() && stored == old(stored) + (chunks.Keys - old(chunks).Keys)
      ensures chunks == old(chunks) || chunks == old(chunks)[digest := body]
      ensures !indexed && digest in old(chunks) ==> chunks == old(chunks)
      ensures r.Ok? ==> digest in chunks && (known.Some? ==> digest in known.value)
      ensures old(faults) == [] ==> faults == [] && r.Ok?
    {
      var present := HasChunk(digest);
      if present.Err? {
        return Err(present.error);
      }
      if present.value {
        return Ok(());
      }
      r := SendChunk(digest, body);
    }

    /** Put the chunk under its digest. */
    method SendChunk(digest: Digest, body: Bytes) returns (r: Result<(), string>)
      requires Valid() && sha(body) == digest
      modifies this`chunks, this`known, this`faults, this`stored
      ensures Valid() && stored == old(stored) + (chunks.Keys - old(chunks).Keys)
      ensures chunks == old(chunks) || chunks == old(chunks)[digest := body]
      ensures r.Ok? ==> digest in chunks && (known.Some? ==> digest in known.value)
      ensures old(faults) == [] ==> faults == [] && r.Ok?
    {
      var sent := Transmit();
      if sent.LostRequest? {
        return Err("Persistence object operation failed.");
      }
      chunks, stored := chunks[digest := body], stored + {digest};
      if sent.LostReply? {
        return Err("Persistence object operation failed.");
      }
      if known.Some? {
        known := Some(known.value + {digest});
      }
      r := Ok(());
    }

    /** Create-only: a taken generation number answers with a failure and changes nothing. */
    method UploadManifest(generation: nat, blob: Sealed) returns (r: Result<(), string>)
      requires Valid() && generation > 0
      modifies this`manifests, this`faults
      ensures Valid() && Grows(old(manifests), manifests)
      ensures manifests == old(manifests) || manifests == old(manifests)[generation := blob]
      ensures r.Ok? ==> generation !in old(manifests) && manifests == old(manifests)[generation := blob]
      ensures old(faults) == [] ==> faults == [] && (r.Ok? <==> generation !in old(manifests))
    {
      var sent := Transmit();
      if sent.LostRequest? || generation in manifests {
        return Err("Persistence object operation failed.");
      }
      manifests := manifests[generation := blob];
      if sent.LostReply? {
        return Err("Persistence object operation failed.");
      }
      r := Ok(());
    }

    /** Fetch the manifest and list the commits. */
    method MayCommit(generation: nat, digest: Digest) returns (r: Result<(), string>)
      modifies this`faults
      ensures r.Ok? ==> Committable(generation, digest, manifests, commits)
      ensures old(faults) == [] ==> faults == [] && (r.Ok? <==> Committable(generation, digest, manifests, commits))
    {
      var got := Transmit();
      if !got.Fine? || generation !in manifests {
        return Err("Durable object does not exist.");
      }
      if manifests[generation].digest != digest {
        return Err("Manifest must exist before generation commit.");
      }
      var listed := Transmit();
      if !listed.Fine? {
        return Err("Persistence object listing is invalid.");
      }
      if exists g :: g in commits && generation <= g {
        return Err("Generation commit must advance monotonically.");
      }
      r := Ok(());
    }

    /** Create the commit object. */
    method PutCommit(generation: nat, digest: Digest) returns (r: Result<(), string>)
      requires Valid() && generation > 0 && Committable(generation, digest, manifests, commits)
      modifies this`commits, this`faults, this`ever
      ensures Valid() && generation !in old(commits)
      ensures || (commits == old(commits) && ever == old(ever))
              || (&& commits == old(commits)[generation := digest]
                  && ever == old(ever)[generation := manifests[generation]])
      ensures r.Ok? ==> generation in commits
      ensures old(faults) == [] ==> faults == [] && r.Ok?
    {
      var sent := Transmit();
      if sent.LostRequest? {
        return Err("Persistence object operation failed.");
      }
      commits, ever := commits[generation := digest], ever[generation := manifests[generation]];
      if sent.LostReply? {
        return Err("Persistence object operation failed.");
      }
      r := Ok(());
    }

    method CommitGeneration(generation: nat, digest: Digest) returns (r: Result<(), string>)
      requires Valid() && generation > 0
      modifies this`commits, this`faults, this`ever
      ensures Valid() && Grows(old(commits), commits)
      ensures commits == old(commits) ==> ever == old(ever)
      ensures commits != old(commits) ==>
                && Committable(generation, digest, manifests, old(commits))
                && commits == old(commits)[generation := digest]
                && ever == old(ever)[generation := manifests[generation]]
      ensures r.Ok? ==> commits != old(commits)
      // Numbers only advance, and never past a missing or different manifest.
      ensures commits != old(commits) ==>
                && (forall g | g in old(commits) :: g < generation)
                && generation in manifests && manifests[generation].digest == digest
      ensures old(faults) == [] ==>
                faults == [] && (r.Ok? <==> Committable(generation, digest, manifests, old(commits)))
    {
      r := MayCommit(generation, digest);
      if r.Ok? {
        r := PutCommit(generation, digest);
      }
    }

    /** The collector's deletions, made beside the broker's network. */
    method RemoveGeneration(generation: nat)
      requires Valid()
      modifies this`manifests, this`commits
      ensures Valid() && manifests == old(manifests) - {generation} && commits == old(commits) - {generation}
    {
      manifests := manifests - {generation};
      commits := commits - {generation};
    }

    /** Only sound beside a writer without the cached index, which would still list the chunk. */
    method RemoveChunk(digest: Digest)
      requires Valid() && !indexed
      modifies this`chunks
      ensures Valid() && chunks == old(chunks) - {digest}
    {
      chunks := chunks - {digest};
    }

    /** The first number above every commit and every manifest, orphans included. */
    method NextGeneration() returns (r: Result<nat, string>)
      requires Valid()
      modifies this`faults
      ensures r.Ok? ==>
                && r.value > 0
                && (forall g | g in commits || g in manifests :: g < r.value)
                && r.value !in commits && r.value !in manifests
                && (r.value == 1 || r.value - 1 in commits || r.value - 1 in manifests)
      ensures old(faults) == [] ==> faults == [] && r.Ok?
    {
      var listed := Transmit();
      var listedManifests := Transmit();
      if !listed.Fine? || !listedManifests.Fine? {
        return Err("Persistence object listing is invalid.");
      }
      var highest := 0;
      var todo := commits.Keys + manifests.Keys;
      while todo != {}
        invariant todo <= commits.Keys + manifests.Keys
        invariant forall g | g in commits || g in manifests :: g in todo || g <= highest
        invariant highest == 0 || highest in commits || highest in manifests
      {
        var g :| g in todo;
        if g > highest {
          highest := g;
        }
        todo := todo - {g};
      }
      r := Ok(highest + 1);
    }
  }
}
