/**
 `CheckpointEngine`: quiesce, flush, build, upload, commit, remember, clear.
 Whatever fails, and wherever, every committed generation stays complete.
 */
module CheckpointEngine {
  import opened Base
  import opened Paths
  import opened Chunking
  import opened Manifest
  import opened Builder
  import opened Journal
  import opened DurableStore

  datatype CheckpointStep =
    | Quiesced | Flushed | ManifestBuilt | ChunksUploaded
    | ManifestUploaded | GenerationCommitted | LocalStateWritten | JournalCleared

  datatype Receipt = Receipt(generation: nat, digest: Digest, dirty: set<string>)

  datatype Failure = Incomplete | ReadOnly

  /** One thing that happens to a sandbox's checkpoints. */
  datatype Plan =
    | Attempt(final: bool, snapshot: Snapshot, now: int, dirtied: seq<string>, inject: set<CheckpointStep>)
    | Replacement

  // -------------------------------- chunks a build may rely on without reading

  /** Every entry the cache may hand out names only durable chunks. */
  predicate CacheDurable(cache: Cache, chunks: set<Digest>)
  {
    forall k, d | k in cache && d in cache[k].entry.chunks :: d in chunks
  }

  lemma {:induction false} AddPiecesAdds(sha: Bytes -> Digest, chunks: map<Digest, Bytes>, pieces: seq<Bytes>)
    ensures chunks.Keys <= AddPieces(sha, chunks, pieces).Keys
    ensures forall i | 0 <= i < |pieces| :: sha(pieces[i]) in AddPieces(sha, chunks, pieces)
    ensures (forall d | d in chunks :: sha(chunks[d]) == d) ==>
              forall d | d in AddPieces(sha, chunks, pieces) :: sha(AddPieces(sha, chunks, pieces)[d]) == d
    decreases |pieces|
  {
    if pieces != [] {
      AddPiecesAdds(sha, chunks, pieces[..|pieces| - 1]);
    }
  }

  lemma {:induction false} ChunksAreContent(sha: Bytes -> Digest, size: nat, cache: Cache, s: Snapshot, walked: nat)
    requires s.Listed() && walked <= |s.walk| && size > 0
    ensures forall d | d in Chunks(sha, size, cache, s, walked) :: sha(Chunks(sha, size, cache, s, walked)[d]) == d
    decreases walked
  {
    if walked > 0 {
      var n := s.nodes[s.walk[walked - 1]];
      ChunksAreContent(sha, size, cache, s, walked - 1);
      if n.File? {
        AddPiecesAdds(sha, Chunks(sha, size, cache, s, walked - 1), Pieces(n.content, size));
      }
    }
  }

  lemma {:induction false} AddsOnlyPieces(sha: Bytes -> Digest, chunks: map<Digest, Bytes>, pieces: seq<Bytes>,
                                          bodies: set<Bytes>)
    requires (forall d | d in chunks :: chunks[d] in bodies) && forall x | x in pieces :: x in bodies
    ensures forall d | d in AddPieces(sha, chunks, pieces) :: AddPieces(sha, chunks, pieces)[d] in bodies
    decreases |pieces|
  {
    if pieces != [] {
      AddsOnlyPieces(sha, chunks, pieces[..|pieces| - 1], bodies);
    }
  }

  /** A build uploads nothing but pieces of the frozen workspace. */
  lemma {:induction false} ChunksArePieces(sha: Bytes -> Digest, size: nat, cache: Cache, s: Snapshot, walked: nat)
    requires s.Listed() && walked <= |s.walk| && size > 0
    ensures forall d | d in Chunks(sha, size, cache, s, walked) ::
              Chunks(sha, size, cache, s, walked)[d] in PiecesOf(s, size)
    decreases walked
  {
    if walked > 0 {
      var p := s.walk[walked - 1];
      var n := s.nodes[p];
      ChunksArePieces(sha, size, cache, s, walked - 1);
      if Recorded(p, n) && n.File? {
        AddsOnlyPieces(sha, Chunks(sha, size, cache, s, walked - 1), Pieces(n.content, size), PiecesOf(s, size));
      }
    }
  }

  lemma AddsLess(before: map<Digest, Bytes>, after: map<Digest, Bytes>, bodies: set<Bytes>, more: set<Bytes>)
    requires OnlyAdds(before, after, bodies) && bodies <= more
    ensures OnlyAdds(before, after, more)
  {
  }

  /** What the last walked node adds to the upload set is durable. */
  lemma LastFileCovered(sha: Bytes -> Digest, size: nat, cache: Cache, s: Snapshot, walked: nat, durable: set<Digest>)
    requires s.Listed() && 0 < walked <= |s.walk| && size > 0
    requires Chunks(sha, size, cache, s, walked).Keys <= durable
    ensures Chunks(sha, size, cache, s, walked - 1).Keys <= durable
    ensures var p := s.walk[walked - 1];
            var n := s.nodes[p];
            Recorded(p, n) && n.File? && !Reuses(cache, Join(p), n) ==>
              forall d | d in FileEntry(sha, size, Join(p), n).chunks :: d in durable
  {
    var n := s.nodes[s.walk[walked - 1]];
    if n.File? {
      AddPiecesAdds(sha, Chunks(sha, size, cache, s, walked - 1), Pieces(n.content, size));
    }
  }

  /** Once the chunks of a build are durable, so is everything its entries name. */
  lemma {:induction false} EntriesCovered(
      sha: Bytes -> Digest, size: nat, cache: Cache, s: Snapshot, walked: nat, durable: set<Digest>)
    requires s.Listed() && walked <= |s.walk| && size > 0
    requires CacheDurable(cache, durable)
    requires Chunks(sha, size, cache, s, walked).Keys <= durable
    ensures RefersOnlyTo(Entries(sha, size, cache, s, walked), durable)
    decreases walked
  {
    if walked > 0 {
      LastFileCovered(sha, size, cache, s, walked, durable);
      EntriesCovered(sha, size, cache, s, walked - 1, durable);
    }
  }

  /** And so is everything its new baseline names. */
  lemma {:induction false} StampsCovered(
      sha: Bytes -> Digest, size: nat, cache: Cache, s: Snapshot, now: int, walked: nat, durable: set<Digest>)
    requires s.Listed() && walked <= |s.walk| && size > 0
    requires CacheDurable(cache, durable)
    requires Chunks(sha, size, cache, s, walked).Keys <= durable
    ensures CacheDurable(Stamps(sha, size, cache, s, now, walked), durable)
    decreases walked
  {
    if walked > 0 {
      LastFileCovered(sha, size, cache, s, walked, durable);
      StampsCovered(sha, size, cache, s, now, walked - 1, durable);
    }
  }

  lemma OutcomeCovered(
      sha: Bytes -> Digest, size: nat, cache: Cache, s: Snapshot, now: int, generation: nat, durable: set<Digest>)
    requires s.Listed() && size > 0 && CacheDurable(cache, durable)
    requires Outcome(sha, size, cache, s, now, generation).chunks.Keys <= durable
    ensures RefersOnlyTo(Outcome(sha, size, cache, s, now, generation).entries, durable)
    ensures CacheDurable(Outcome(sha, size, cache, s, now, generation).stamps, durable)
  {
    EntriesCovered(sha, size, cache, s, |s.walk|, durable);
    StampsCovered(sha, size, cache, s, now, |s.walk|, durable);
    SortByPathSorts(Entries(sha, size, cache, s, |s.walk|));
  }

  /** At most this generation joined the manifests, with these entries, and the commits. */
  ghost predicate AtMostOne(before: map<nat, Sealed>, after: map<nat, Sealed>,
                            was: map<nat, Digest>, now: map<nat, Digest>, g: nat, entries: seq<Entry>)
  {
    && Grows(before, after) && Grows(was, now) && now.Keys <= was.Keys + {g}
    && (forall h | h in after && h !in before :: h == g && after[h].entries == entries)
  }

  /** No network fault is due, no step is made to fail, and the number is above every other. */
  predicate Undisturbed(faults: seq<Fault>, inject: set<CheckpointStep>, generation: nat,
                        manifests: map<nat, Sealed>, commits: map<nat, Digest>)
  {
    && faults == [] && inject == {} && generation > 0 && generation !in manifests
    && forall g | g in commits :: g < generation
  }

  /** Nothing fails until the snapshot has been read. */
  predicate Captures(inject: set<CheckpointStep>)
  {
    Quiesced !in inject && Flushed !in inject && ManifestBuilt !in inject
  }

  /** The marks made while the commit runs: those of the paths that change once the gateway runs again. */
  function MadeMeanwhile(final: bool, inject: set<CheckpointStep>, dirtied: seq<string>, next: nat, now: int): seq<Mark>
  {
    if Captures(inject) && !final then MarksOf(dirtied, next, now) else []
  }

  // --------------------------------------------------------------- the engine

  class Engine {
    const builder: ManifestBuilder
    const store: Store
    const journal: DirtyJournal
    /** Digest of a generation's encoded manifest. */
    const seal: (nat, seq<Entry>) -> Digest
    /** Recovery-point objective: how long a dirty mark may stay uncommitted. */
    const rpo: int
    var paused: bool
    var readOnly: bool
    var localState: Option<(nat, Digest)>

    ghost predicate Valid()
      reads this, builder, store, journal
    {
      && builder.Valid() && store.Valid() && journal.Valid() && builder.sha == store.sha
      && Complete(store.chunks.Keys, store.manifests, store.commits)
      && CacheDurable(builder.committed, store.chunks.Keys)
    }

    constructor (builder: ManifestBuilder, store: Store, journal: DirtyJournal,
                 seal: (nat, seq<Entry>) -> Digest, rpo: int)
      requires builder.Valid() && store.Valid() && journal.Valid() && builder.sha == store.sha
      requires Complete(store.chunks.Keys, store.manifests, store.commits) && builder.committed == map[]
      ensures Valid() && !paused && !readOnly
      ensures this.builder == builder && this.store == store && this.journal == journal
    {
      this.builder, this.store, this.journal, this.seal, this.rpo := builder, store, journal, seal, rpo;
      paused, readOnly, localState := false, false, None;
    }

    /** Upload what the store does not have yet, in any order; one failure fails them all. */
    method UploadChunks(chunks: map<Digest, Bytes>) returns (r: Result<(), string>)
      requires Valid() && forall d | d in chunks :: store.sha(chunks[d]) == d
      modifies store`chunks, store`known, store`faults, store`stored
      ensures Valid() && old(store.chunks).Keys <= store.chunks.Keys
      ensures OnlyAdds(old(store.chunks), store.chunks, chunks.Values)
      ensures r.Ok? ==> chunks.Keys <= store.chunks.Keys
      ensures old(store.faults) == [] ==> store.faults == [] && r.Ok?
    {
      var missing: set<Digest>, unasked := {}, chunks.Keys;
      while unasked != {}
        invariant store.Valid() && unasked <= chunks.Keys && missing <= chunks.Keys
        invariant store.chunks == old(store.chunks) && (old(store.faults) == [] ==> store.faults == [])
        invariant chunks.Keys <= missing + unasked + store.chunks.Keys
      {
        var d :| d in unasked;
        unasked := unasked - {d};
        var present := store.HasChunk(d);
        if present.Err? {
          return Err(present.error);
        }
        if !present.value {
          missing := missing + {d};
        }
      }
      while missing != {}
        invariant Valid() && missing <= chunks.Keys && (old(store.faults) == [] ==> store.faults == [])
        invariant old(store.chunks).Keys <= store.chunks.Keys
        invariant OnlyAdds(old(store.chunks), store.chunks, chunks.Values)
        invariant chunks.Keys <= missing + store.chunks.Keys
      {
        var d :| d in missing;
        assert chunks[d] in chunks.Values;
        missing := missing - {d};
        var sent := store.UploadChunk(d, chunks[d]);
        if sent.Err? {
          return Err(sent.error);
        }
      }
      r := Ok(());
    }

    /** Upload the manifest and commit the generation it describes. */
    method CommitManifest(generation: nat, entries: seq<Entry>, inject: set<CheckpointStep>)
        returns (r: Result<Digest, string>)
      requires Valid() && generation > 0 && RefersOnlyTo(entries, store.chunks.Keys)
      modifies store`manifests, store`commits, store`faults, store`ever
      ensures Valid()
      ensures r.Ok? ==> && r.value == seal(generation, entries) && generation !in old(store.commits)
                        && store.commits == old(store.commits)[generation := r.value]
                        && generation in store.manifests
                        && store.manifests[generation] == Sealed(r.value, entries)
      ensures AtMostOne(old(store.manifests), store.manifests, old(store.commits), store.commits,
                        generation, entries)
      ensures Undisturbed(old(store.faults), inject, generation, old(store.manifests), old(store.commits)) ==> r.Ok?
    {
      var digest := seal(generation, entries);
      var uploaded := store.UploadManifest(generation, Sealed(digest, entries));
      if uploaded.Err? {
        return Err(uploaded.error);
      }
      if ManifestUploaded in inject {
        return Err("injected");
      }
      var committed := store.CommitGeneration(generation, digest);
      if committed.Err? {
        return Err(committed.error);
      }
      if GenerationCommitted in inject {
        return Err("injected");
      }
      r := Ok(digest);
    }

    /** Upload and commit one build; on success it becomes the next baseline. */
    method Persist(built: Built, ghost s: Snapshot, ghost now: int, inject: set<CheckpointStep>)
        returns (r: Result<Digest, string>)
      requires Valid() && s.Listed() && built.generation > 0
      requires built == Outcome(builder.sha, builder.chunkSize, builder.committed, s, now, built.generation)
      modifies store`chunks, store`known, store`manifests, store`commits, store`faults, builder
      modifies store`stored, store`ever
      ensures Valid()
      ensures r.Err? ==> builder.committed == old(builder.committed)
      ensures r.Ok? ==>
                && built.generation !in old(store.commits)
                && store.commits == old(store.commits)[built.generation := r.value]
                && built.generation in store.manifests
                && store.manifests[built.generation] == Sealed(r.value, built.entries)
                && builder.committed == built.stamps
      ensures AtMostOne(old(store.manifests), store.manifests, old(store.commits), store.commits,
                        built.generation, built.entries)
      ensures OnlyAdds(old(store.chunks), store.chunks, PiecesOf(s, builder.chunkSize))
      ensures Undisturbed(old(store.faults), inject, built.generation, old(store.manifests), old(store.commits)) ==>
                r.Ok?
    {
      ChunksAreContent(builder.sha, builder.chunkSize, builder.committed, s, |s.walk|);
      ChunksArePieces(builder.sha, builder.chunkSize, builder.committed, s, |s.walk|);
      var uploaded := UploadChunks(built.chunks);
      AddsLess(old(store.chunks), store.chunks, built.chunks.Values, PiecesOf(s, builder.chunkSize));
      if uploaded.Err? {
        return Err(uploaded.error);
      }
      if ChunksUploaded in inject {
        return Err("injected");
      }
      OutcomeCovered(builder.sha, builder.chunkSize, builder.committed, s, now, built.generation, store.chunks.Keys);
      r := CommitManifest(built.generation, built.entries, inject);
      if r.Ok? {
        builder.Remember(built);
      }
    }

    /** Past the recovery-point objective the sandbox goes read-only. */
    method EnforceRpo(now: int) returns (breached: bool)
      requires journal.Valid()
      modifies this`readOnly
      ensures breached == (journal.marks != [] && now - journal.marks[0].at >= rpo)
      ensures readOnly == (old(readOnly) || breached)
    {
      var snapshot := journal.Snapshot();
      breached := snapshot.firstDirty.Some? && now - snapshot.firstDirty.value >= rpo;
      if breached {
        readOnly := true;
      }
    }

    /** The gateway runs again and these paths change before the commit finishes. */
    method Resume(dirtied: seq<string>, now: int)
      requires journal.Valid()
      modifies this`paused, journal
      ensures !paused && journal.Valid()
      ensures journal.marks == old(journal.marks) + MarksOf(dirtied, old(journal.next), now)
    {
      ghost var next := journal.next;
      paused := false;
      for i := 0 to |dirtied|
        invariant journal.Valid() && !paused
        invariant journal.marks == old(journal.marks) + MarksOf(dirtied[..i], next, now)
        invariant journal.next == next + |MarksOf(dirtied[..i], next, now)|
      {
        assert dirtied[..i + 1][..i] == dirtied[..i];
        var _ := journal.Record(dirtied[i], now);
      }
      assert dirtied[..|dirtied|] == dirtied;
    }

    /** A failed checkpoint never leaves the gateway frozen. */
    method Fail(now: int) returns (r: Result<Receipt, Failure>)
      requires journal.Valid()
      modifies this`paused, this`readOnly
      ensures r.Err? && !paused
      ensures r.error == ReadOnly <==> journal.marks != [] && now - journal.marks[0].at >= rpo
      ensures readOnly == (old(readOnly) || r.error == ReadOnly)
    {
      var breached := EnforceRpo(now);
      paused := false;
      r := Err(if breached then ReadOnly else Incomplete);
    }

    /** Freeze the gateway, read the whole snapshot, and let it run again unless this is the last checkpoint. */
    method Capture(generation: nat, final: bool, s: Snapshot, now: int, dirtied: seq<string>,
                   inject: set<CheckpointStep>) returns (built: Option<Built>)
      requires builder.Valid() && journal.Valid() && s.Listed()
      modifies this`paused, journal
      ensures journal.Valid()
      ensures journal.marks
              == old(journal.marks)
                 + if generation > 0 then MadeMeanwhile(final, inject, dirtied, old(journal.next), now) else []
      ensures built.Some? ==>
                && generation > 0 && paused == final
                && built.value == Outcome(builder.sha, builder.chunkSize, builder.committed, s, now, generation)
      ensures built.Some? <==> generation > 0 && Captures(inject)
    {
      paused := true;
      if Quiesced in inject || Flushed in inject {
        return None;
      }
      var result := builder.Build(generation, s, now);
      if result.Err? || ManifestBuilt in inject {
        return None;
      }
      if !final {
        Resume(dirtied, now);
      }
      built := Some(result.value);
    }

    /** After the commit: note the generation locally, then drop the marks the snapshot saw. */
    method Conclude(generation: nat, digest: Digest, through: nat, ghost seen: seq<Mark>, inject: set<CheckpointStep>)
        returns (done: bool)
      requires journal.Valid() && seen <= journal.marks && through == Through(seen)
      modifies this`localState, journal
      ensures journal.Valid() && localState == Some((generation, digest))
      ensures journal.marks == if LocalStateWritten in inject then old(journal.marks) else old(journal.marks)[|seen|..]
      ensures done <==> LocalStateWritten !in inject && JournalCleared !in inject
    {
      localState := Some((generation, digest));
      if LocalStateWritten in inject {
        return false;
      }
      ghost var later := journal.marks[|seen|..];
      assert journal.marks == seen + later;
      LaterIsWhatCameAfter(seen, later, journal.next);
      journal.ClearThrough(through);
      done := JournalCleared !in inject;
    }

    /**
     One checkpoint. `dirtied` are the paths that change once the gateway runs
     again, before the commit finishes; `inject` are the steps that fail.
     */
    method Checkpoint(generation: nat, final: bool, s: Snapshot, now: int, dirtied: seq<string>,
                      inject: set<CheckpointStep>) returns (r: Result<Receipt, Failure>)
      requires Valid() && !paused && s.Listed()
      modifies this, store, builder, journal
      ensures Valid()
      // The gateway stays frozen only after a final checkpoint that completed.
      ensures paused == (r.Ok? && final)
      // Marks are forgotten only once a commit that contains them is durable; those made meanwhile all stay.
      ensures var made :=
                if generation > 0 then MadeMeanwhile(final, inject, dirtied, old(journal.next), now) else [];
              && (r.Ok? ==> journal.marks == made)
              && (r.Err? ==>
                    || (journal.marks == old(journal.marks) + made && localState == old(localState))
                    || (&& generation in store.commits && generation !in old(store.commits)
                        && journal.marks == if LocalStateWritten in inject then old(journal.marks) + made else made))
      ensures r.Ok? ==>
                && generation in store.commits && store.commits[generation] == r.value.digest
                && r.value.generation == generation
                && r.value.dirty == (set m | m in old(journal.marks) :: m.path)
                && generation in store.manifests
                && store.manifests[generation].entries
                   == BuiltEntries(builder.sha, builder.chunkSize, old(builder.committed), s)
                && localState == Some((generation, r.value.digest)) && !readOnly
      ensures r.Err? ==> readOnly == (old(readOnly) || r.error == ReadOnly)
      // Whatever was made durable, and whatever the next build may reuse, comes from this snapshot.
      ensures AtMostOne(old(store.manifests), store.manifests, old(store.commits), store.commits, generation,
                        BuiltEntries(builder.sha, builder.chunkSize, old(builder.committed), s))
      ensures OnlyAdds(old(store.chunks), store.chunks, PiecesOf(s, builder.chunkSize))
      ensures || builder.committed == old(builder.committed)
              || builder.committed == Stamps(builder.sha, builder.chunkSize, old(builder.committed), s, now, |s.walk|)
      // Nothing but a fault, an injected failure or a taken number stops a checkpoint.
      ensures Undisturbed(old(store.faults), inject, generation, old(store.manifests), old(store.commits)) ==> r.Ok?
    {
      var snapshot := journal.Snapshot();
      ghost var seen := journal.marks;
      var persisted := Attempt(generation, final, s, now, dirtied, inject);
      r := Finish(generation, persisted, final, now, snapshot, seen, inject);
    }

    /** The steps of a checkpoint up to the commit of its generation. */
    method Attempt(generation: nat, final: bool, s: Snapshot, now: int, dirtied: seq<string>,
                   inject: set<CheckpointStep>) returns (digest: Option<Digest>)
      requires Valid() && s.Listed()
      modifies this`paused, store, builder, journal
      ensures Valid()
      ensures journal.marks
              == old(journal.marks)
                 + if generation > 0 then MadeMeanwhile(final, inject, dirtied, old(journal.next), now) else []
      ensures digest.Some? ==>
                && paused == final && generation !in old(store.commits)
                && generation in store.commits && store.commits[generation] == digest.value
                && generation in store.manifests
                && store.manifests[generation].entries
                   == BuiltEntries(builder.sha, builder.chunkSize, old(builder.committed), s)
      ensures AtMostOne(old(store.manifests), store.manifests, old(store.commits), store.commits, generation,
                        BuiltEntries(builder.sha, builder.chunkSize, old(builder.committed), s))
      ensures OnlyAdds(old(store.chunks), store.chunks, PiecesOf(s, builder.chunkSize))
      ensures || builder.committed == old(builder.committed)
              || builder.committed == Stamps(builder.sha, builder.chunkSize, old(builder.committed), s, now, |s.walk|)
      ensures Undisturbed(old(store.faults), inject, generation, old(store.manifests), old(store.commits)) ==>
                digest.Some?
    {
      var built := Capture(generation, final, s, now, dirtied, inject);
      if built.None? {
        return None;
      }
      var persisted := Persist(built.value, s, now, inject);
      digest := if persisted.Ok? then Some(persisted.value) else None;
    }

    /** The last steps of a checkpoint, if its generation was committed, and what failing does. */
    method Finish(generation: nat, digest: Option<Digest>, final: bool, now: int, snapshot: JournalSnapshot,
                  ghost seen: seq<Mark>, inject: set<CheckpointStep>) returns (r: Result<Receipt, Failure>)
      requires Valid() && seen <= journal.marks && snapshot.through == Through(seen)
      requires digest.Some? ==> paused == final
      modifies this`localState, this`paused, this`readOnly, journal
      ensures Valid() && paused == (r.Ok? && final) && unchanged(store) && unchanged(builder)
      ensures r.Ok? <==> digest.Some? && LocalStateWritten !in inject && JournalCleared !in inject
      ensures journal.marks == if digest.Some? && LocalStateWritten !in inject then old(journal.marks)[|seen|..]
                               else old(journal.marks)
      ensures localState == if digest.Some? then Some((generation, digest.value)) else old(localState)
      ensures r.Ok? ==> r.value == Receipt(generation, digest.value, snapshot.paths) && !readOnly
      ensures r.Err? ==> readOnly == (old(readOnly) || r.error == ReadOnly)
    {
      var done := false;
      if digest.Some? {
        done := Conclude(generation, digest.value, snapshot.through, seen, inject);
      }
      if !done {
        r := Fail(now);
        return;
      }
      readOnly := false;
      r := Ok(Receipt(generation, digest.value, snapshot.paths));
    }

    /** The runtime's checkpoint: take the first unused number, then run the engine. */
    method CommitCheckpoint(final: bool, s: Snapshot, now: int, dirtied: seq<string>, inject: set<CheckpointStep>)
        returns (r: Option<Receipt>)
      requires Valid() && !paused && s.Listed()
      modifies this, store, builder, journal
      ensures Valid() && paused == (r.Some? && final)
      ensures Grows(old(store.manifests), store.manifests) && Grows(old(store.commits), store.commits)
      ensures r.Some? ==>
                && (forall g | g in old(store.commits) || g in old(store.manifests) :: g < r.value.generation)
                && r.value.generation in store.commits && store.commits[r.value.generation] == r.value.digest
      ensures old(store.faults) == [] && inject == {} ==> r.Some?
      ensures var made := MadeMeanwhile(final, inject, dirtied, old(journal.next), now);
              && (r.Some? ==> journal.marks == made)
              && (r.None? ==>
                    || journal.marks == old(journal.marks)
                    || journal.marks == old(journal.marks) + made
                    || (journal.marks == made && store.commits != old(store.commits)))
      ensures forall g | g in store.manifests && g !in old(store.manifests) ::
                store.manifests[g].entries == BuiltEntries(builder.sha, builder.chunkSize, old(builder.committed), s)
      ensures forall g | g in store.commits && g !in old(store.commits) :: g !in old(store.manifests)
      ensures OnlyAdds(old(store.chunks), store.chunks, PiecesOf(s, builder.chunkSize))
      ensures || builder.committed == old(builder.committed)
              || builder.committed == Stamps(builder.sha, builder.chunkSize, old(builder.committed), s, now, |s.walk|)
    {
      var generation := store.NextGeneration();
      if generation.Err? {
        return None;
      }
      var done := Checkpoint(generation.value, final, s, now, dirtied, inject);
      r := if done.Ok? then Some(done.value) else None;
    }

    /** A replacement container starts with no index, no baseline and an empty journal. */
    method Replace()
      requires Valid()
      modifies this, store`known, builder, journal
      ensures Valid() && !paused && builder.committed == map[] && store.known == None
    {
      store.Restart();
      builder.Forget();
      journal.ClearThrough(journal.next);
      paused, readOnly, localState := false, false, None;
    }

    /** Over any sequence of checkpoints and container replacements, whatever fails, commits stay complete and stay. */
    method RunHistory(plans: seq<Plan>)
      requires Valid() && !paused
      requires forall i | 0 <= i < |plans| && plans[i].Attempt? :: plans[i].snapshot.Listed()
      modifies this, store, builder, journal
      ensures Valid() && Complete(store.chunks.Keys, store.manifests, store.commits)
      ensures Grows(old(store.manifests), store.manifests) && Grows(old(store.commits), store.commits)
    {
      for i := 0 to |plans|
        invariant Valid() && !paused
        invariant Grows(old(store.manifests), store.manifests) && Grows(old(store.commits), store.commits)
      {
        match plans[i] {
          case Attempt(final, snapshot, now, dirtied, inject) =>
            var r := CommitCheckpoint(final, snapshot, now, dirtied, inject);
            if r.Some? && final {
              Replace();
            }
          case Replacement => Replace();
        }
      }
    }
  }
}
