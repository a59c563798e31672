/**
 A sandbox's whole life on one disk: files change, checkpoints go through the
 stamp cache and may fail anywhere, containers are replaced, and any generation
 committed on the way restores to exactly the workspace that was frozen for it.
 */
module Lifetime {
  import opened Base
  import opened Manifest
  import opened Chunking
  import opened Builder
  import opened IncrementalBuild
  import opened DurableStore
  import opened CheckpointEngine
  import opened Materialize
  import opened RoundTrip
  import Install
  import opened Recovery

  datatype Deed =
    | Change(act: Act)
    | Checkpointing(final: bool, dirtied: seq<string>, inject: set<CheckpointStep>)
    | ContainerReplaced

  /** Changes are to the clock, a file, or the tree that names files. */
  predicate OnDisk(a: Act) { a.Wait? || a.Store? || a.Rearrange? }

  /** The clock and the disk before the `n`-th deed. */
  ghost function Scene(sha: Bytes -> Digest, size: nat, w: World, deeds: seq<Deed>, n: nat): World
    requires size > 0 && n <= |deeds|
  {
    if n == 0 then w
    else
      var before := Scene(sha, size, w, deeds, n - 1);
      if deeds[n - 1].Change? && Linked(before.disk) then Do(sha, size, before, deeds[n - 1].act) else before
  }

  /** A change is possible when it happens, and a frozen workspace is a POSIX tree. */
  ghost predicate PlausibleDeed(here: World, deed: Deed)
  {
    && (deed.Change? ==> OnDisk(deed.act) && Enabled(here, deed.act))
    && (deed.Checkpointing? && Linked(here.disk) ==> WellFormed(Freeze(here.disk)))
  }

  ghost predicate Plausible(sha: Bytes -> Digest, size: nat, w: World, deeds: seq<Deed>)
    requires size > 0
  {
    forall i | 0 <= i < |deeds| :: PlausibleDeed(Scene(sha, size, w, deeds, i), deeds[i])
  }

  lemma ChangeKeepsLinks(sha: Bytes -> Digest, size: nat, w: World, a: Act)
    requires size > 0 && Linked(w.disk) && OnDisk(a) && Enabled(w, a)
    ensures Linked(Do(sha, size, w, a).disk)
  {
  }

  lemma {:induction false} ScenesAreLinked(sha: Bytes -> Digest, size: nat, w: World, deeds: seq<Deed>, n: nat)
    requires size > 0 && n <= |deeds| && Linked(w.disk) && Plausible(sha, size, w, deeds)
    ensures Linked(Scene(sha, size, w, deeds, n).disk)
    decreases n
  {
    if n > 0 {
      ScenesAreLinked(sha, size, w, deeds, n - 1);
      var before := Scene(sha, size, w, deeds, n - 1);
      assert PlausibleDeed(before, deeds[n - 1]);
      if deeds[n - 1].Change? {
        ChangeKeepsLinks(sha, size, before, deeds[n - 1].act);
      }
    }
  }

  /** The scene as the running engine's builder sees it. */
  ghost function Seen(scene: World, cache: Cache): World { World(scene.now, scene.disk, cache, {}) }

  lemma ChangeIsCoherent(sha: Bytes -> Digest, size: nat, scene: World, cache: Cache, a: Act)
    requires size > 0 && Coherent(sha, size, Seen(scene, cache)) && OnDisk(a) && Enabled(scene, a)
    ensures Coherent(sha, size, Seen(Do(sha, size, scene, a), cache))
  {
    CoherentStep(sha, size, Seen(scene, cache), a);
  }

  lemma CheckpointIsCoherent(sha: Bytes -> Digest, size: nat, scene: World, cache: Cache)
    requires size > 0 && Coherent(sha, size, Seen(scene, cache))
    ensures var s := Freeze(scene.disk);
            && BuiltEntries(sha, size, cache, s) == FullEntries(sha, size, s)
            && Coherent(sha, size, Seen(scene, Stamps(sha, size, cache, s, scene.now, |s.walk|)))
  {
    var w := Seen(scene, cache);
    SameEntries(sha, size, w, |w.disk.walk|);
    StampsTrusted(sha, size, w, |w.disk.walk|);
    var stamps := Stamps(sha, size, cache, Freeze(scene.disk), scene.now, |scene.disk.walk|);
    forall key | key in stamps
      ensures Trusted(sha, size, Seen(scene, stamps), key, stamps[key])
    {
      assert Trusted(sha, size, w, key, stamps[key]);
    }
  }

  /** The workspace frozen by the `i`-th deed. */
  ghost function FrozenAt(sha: Bytes -> Digest, size: nat, w: World, deeds: seq<Deed>, i: nat): (s: Snapshot)
    requires size > 0 && i < |deeds| && Linked(Scene(sha, size, w, deeds, i).disk)
    ensures s.Listed()
  {
    Freeze(Scene(sha, size, w, deeds, i).disk)
  }

  /** The pieces of every workspace frozen during the life: all a checkpoint of it can upload. */
  ghost function LifePieces(sha: Bytes -> Digest, size: nat, w: World, deeds: seq<Deed>): set<Bytes>
    requires size > 0
  {
    set i: nat, x |
      && i < |deeds| && deeds[i].Checkpointing? && Linked(Scene(sha, size, w, deeds, i).disk)
      && x in PiecesOf(FrozenAt(sha, size, w, deeds, i), size) :: x
  }

  lemma FrozenPieces(sha: Bytes -> Digest, size: nat, w: World, deeds: seq<Deed>, i: nat)
    requires size > 0 && i < |deeds| && deeds[i].Checkpointing? && Linked(Scene(sha, size, w, deeds, i).disk)
    ensures PiecesOf(FrozenAt(sha, size, w, deeds, i), size) <= LifePieces(sha, size, w, deeds)
  {
  }

  /** These entries are a full read of the workspace that one of the first `n` deeds froze. */
  ghost predicate FullReadOf(sha: Bytes -> Digest, size: nat, w: World, deeds: seq<Deed>, n: nat, entries: seq<Entry>)
    requires size > 0 && n <= |deeds|
  {
    exists i: nat :: i < n && deeds[i].Checkpointing? && FullReadAt(sha, size, w, deeds, i, entries)
  }

  ghost predicate FullReadAt(sha: Bytes -> Digest, size: nat, w: World, deeds: seq<Deed>, i: nat, entries: seq<Entry>)
    requires size > 0 && i < |deeds|
  {
    Linked(Scene(sha, size, w, deeds, i).disk) && entries == FullEntries(sha, size, FrozenAt(sha, size, w, deeds, i))
  }

  /** Every generation committed since is a full read of a workspace frozen since. */
  ghost predicate CommitsAreFullReads(sha: Bytes -> Digest, size: nat, w: World, deeds: seq<Deed>, n: nat,
                                      before: set<nat>, manifests: map<nat, Sealed>, commits: set<nat>)
    requires size > 0 && n <= |deeds|
  {
    forall g | g in commits && g !in before ::
      g in manifests && FullReadOf(sha, size, w, deeds, n, manifests[g].entries)
  }

  method LiveOne(engine: Engine, ghost w: World, deeds: seq<Deed>, n: nat, s: Snapshot, now: int)
    requires engine.Valid() && !engine.paused && n < |deeds| && deeds[n].Checkpointing?
    requires s.Listed() && Linked(Scene(engine.builder.sha, engine.builder.chunkSize, w, deeds, n).disk)
    requires var scene := Scene(engine.builder.sha, engine.builder.chunkSize, w, deeds, n);
             && s == Freeze(scene.disk) && now == scene.now
             && Coherent(engine.builder.sha, engine.builder.chunkSize, Seen(scene, engine.builder.committed))
    modifies engine, engine.store, engine.builder, engine.journal
    ensures engine.Valid() && !engine.paused
    ensures Grows(old(engine.store.manifests), engine.store.manifests)
    ensures Grows(old(engine.store.commits), engine.store.commits)
    ensures OnlyAdds(old(engine.store.chunks), engine.store.chunks, PiecesOf(s, engine.builder.chunkSize))
    ensures var scene := Scene(engine.builder.sha, engine.builder.chunkSize, w, deeds, n);
            Coherent(engine.builder.sha, engine.builder.chunkSize, Seen(scene, engine.builder.committed))
    ensures forall g | g in engine.store.commits && g !in old(engine.store.commits) ::
              && g in engine.store.manifests
              && FullReadAt(engine.builder.sha, engine.builder.chunkSize, w, deeds, n,
                            engine.store.manifests[g].entries)
  {
    CheckpointHere(engine, Scene(engine.builder.sha, engine.builder.chunkSize, w, deeds, n), deeds[n], s, now);
  }

  /** A checkpoint of the workspace as it is. */
  method CheckpointHere(engine: Engine, ghost scene: World, deed: Deed, s: Snapshot, now: int)
    requires engine.Valid() && !engine.paused && deed.Checkpointing? && Linked(scene.disk)
    requires s == Freeze(scene.disk) && now == scene.now
    requires Coherent(engine.builder.sha, engine.builder.chunkSize, Seen(scene, engine.builder.committed))
    modifies engine, engine.store, engine.builder, engine.journal
    ensures engine.Valid() && !engine.paused
    ensures Grows(old(engine.store.manifests), engine.store.manifests)
    ensures Grows(old(engine.store.commits), engine.store.commits)
    ensures OnlyAdds(old(engine.store.chunks), engine.store.chunks, PiecesOf(s, engine.builder.chunkSize))
    ensures Coherent(engine.builder.sha, engine.builder.chunkSize, Seen(scene, engine.builder.committed))
    ensures forall g | g in engine.store.commits && g !in old(engine.store.commits) ::
              && g in engine.store.manifests
              && engine.store.manifests[g].entries
                 == FullEntries(engine.builder.sha, engine.builder.chunkSize, Freeze(scene.disk))
  {
    CheckpointIsCoherent(engine.builder.sha, engine.builder.chunkSize, scene, engine.builder.committed);
    var r := engine.CommitCheckpoint(deed.final, s, now, deed.dirtied, deed.inject);
    if r.Some? && deed.final {
      engine.Replace();
    }
  }

  lemma LongerHistory(sha: Bytes -> Digest, size: nat, w: World, deeds: seq<Deed>, n: nat, before: set<nat>,
                      manifests: map<nat, Sealed>, commits: set<nat>, manifests': map<nat, Sealed>, commits': set<nat>)
    requires size > 0 && n < |deeds| && Grows(manifests, manifests')
    requires CommitsAreFullReads(sha, size, w, deeds, n, before, manifests, commits)
    requires forall g | g in commits' && g !in commits ::
               deeds[n].Checkpointing? && g in manifests' && FullReadAt(sha, size, w, deeds, n, manifests'[g].entries)
    ensures CommitsAreFullReads(sha, size, w, deeds, n + 1, before, manifests', commits')
  {
    forall g | g in commits' && g !in before
      ensures g in manifests' && FullReadOf(sha, size, w, deeds, n + 1, manifests'[g].entries)
    {
      if g in commits {
        var i: nat :| i < n && deeds[i].Checkpointing? && FullReadAt(sha, size, w, deeds, i, manifests[g].entries);
        assert FullReadAt(sha, size, w, deeds, i, manifests'[g].entries);
      }
    }
  }

  /** One deed of the life. */
  method Perform(engine: Engine, w: World, deeds: seq<Deed>, n: nat, here: World) returns (next: World)
    requires engine.Valid() && !engine.paused && n < |deeds|
    requires here == Scene(engine.builder.sha, engine.builder.chunkSize, w, deeds, n)
    requires PlausibleDeed(here, deeds[n])
    requires Coherent(engine.builder.sha, engine.builder.chunkSize, Seen(here, engine.builder.committed))
    modifies engine, engine.store, engine.builder, engine.journal
    ensures engine.Valid() && !engine.paused
    ensures next == Scene(engine.builder.sha, engine.builder.chunkSize, w, deeds, n + 1)
    ensures Coherent(engine.builder.sha, engine.builder.chunkSize, Seen(next, engine.builder.committed))
    ensures Grows(old(engine.store.manifests), engine.store.manifests)
    ensures Grows(old(engine.store.commits), engine.store.commits)
    ensures OnlyAdds(old(engine.store.chunks), engine.store.chunks,
                     LifePieces(engine.builder.sha, engine.builder.chunkSize, w, deeds))
    ensures forall g | g in engine.store.commits && g !in old(engine.store.commits) ::
              && deeds[n].Checkpointing? && g in engine.store.manifests
              && FullReadAt(engine.builder.sha, engine.builder.chunkSize, w, deeds, n,
                            engine.store.manifests[g].entries)
  {
    next := here;
    match deeds[n] {
      case Change(act) =>
        ChangeIsCoherent(engine.builder.sha, engine.builder.chunkSize, here, engine.builder.committed, act);
        next := Do(engine.builder.sha, engine.builder.chunkSize, here, act);
      case Checkpointing(_, _, _) =>
        FrozenPieces(engine.builder.sha, engine.builder.chunkSize, w, deeds, n);
        LiveOne(engine, w, deeds, n, Freeze(here.disk), here.now);
      case ContainerReplaced =>
        engine.Replace();
    }
  }

  /**
   Over every plausible life, whatever fails, each generation committed during it is a full
   read of a workspace frozen during it, though no checkpoint need have read every file, and
   each chunk uploaded is a piece of such a workspace.
   */
  method Live(engine: Engine, w: World, deeds: seq<Deed>)
    requires engine.Valid() && !engine.paused && engine.builder.committed == map[] && Linked(w.disk)
    requires Plausible(engine.builder.sha, engine.builder.chunkSize, w, deeds)
    modifies engine, engine.store, engine.builder, engine.journal
    ensures engine.Valid()
    ensures Grows(old(engine.store.manifests), engine.store.manifests)
    ensures Grows(old(engine.store.commits), engine.store.commits)
    ensures OnlyAdds(old(engine.store.chunks), engine.store.chunks,
                     LifePieces(engine.builder.sha, engine.builder.chunkSize, w, deeds))
    ensures CommitsAreFullReads(engine.builder.sha, engine.builder.chunkSize, w, deeds, |deeds|,
                                old(engine.store.commits).Keys, engine.store.manifests, engine.store.commits.Keys)
  {
    ghost var sha, size := engine.builder.sha, engine.builder.chunkSize;
    var here := w;
    for n := 0 to |deeds|
      invariant engine.Valid() && !engine.paused && here == Scene(sha, size, w, deeds, n)
      invariant Coherent(sha, size, Seen(here, engine.builder.committed))
      invariant Grows(old(engine.store.manifests), engine.store.manifests)
      invariant Grows(old(engine.store.commits), engine.store.commits)
      invariant OnlyAdds(old(engine.store.chunks), engine.store.chunks, LifePieces(sha, size, w, deeds))
      invariant CommitsAreFullReads(sha, size, w, deeds, n, old(engine.store.commits).Keys,
                                    engine.store.manifests, engine.store.commits.Keys)
    {
      ghost var manifests, commits := engine.store.manifests, engine.store.commits.Keys;
      here := Perform(engine, w, deeds, n, here);
      LongerHistory(sha, size, w, deeds, n, old(engine.store.commits).Keys, manifests, commits,
                    engine.store.manifests, engine.store.commits.Keys);
    }
  }

  /** Digests are hex, and nothing that is or will be in the store shares its digest with another content. */
  ghost predicate Distinct(sha: Bytes -> Digest, size: nat, w: World, deeds: seq<Deed>, chunks: map<Digest, Bytes>)
    requires size > 0
  {
    HexDigests(sha) && CollisionFree(sha, LifePieces(sha, size, w, deeds) + chunks.Values)
  }

  /** What a life leaves in the store collides with no workspace frozen during it. */
  lemma FrozenIsCollisionFree(sha: Bytes -> Digest, size: nat, w: World, deeds: seq<Deed>, i: nat,
                              before: map<Digest, Bytes>, after: map<Digest, Bytes>)
    requires size > 0 && i < |deeds| && deeds[i].Checkpointing? && Linked(Scene(sha, size, w, deeds, i).disk)
    requires Distinct(sha, size, w, deeds, before) && OnlyAdds(before, after, LifePieces(sha, size, w, deeds))
    ensures CollisionFree(sha, PiecesOf(FrozenAt(sha, size, w, deeds, i), size) + after.Values)
  {
    FrozenPieces(sha, size, w, deeds, i);
    assert after.Values <= LifePieces(sha, size, w, deeds) + before.Values;
  }

  /**
   The whole story: after any plausible life, restoring any generation committed during it
   succeeds exactly if it is within the decoder's limits and all of it arrives, and puts back
   exactly the workspace that was frozen for it. No two of the pieces frozen during the life
   and the chunks there were before may share a digest.
   */
  method LiveThenRestore(engine: Engine, w: World, deeds: seq<Deed>, generation: nat, id: string, at: string,
                         arrival: Arrival) returns (r: Result<Tree, string>, ghost i: nat)
    requires engine.Valid() && !engine.paused && engine.builder.committed == map[] && Linked(w.disk)
    requires Plausible(engine.builder.sha, engine.builder.chunkSize, w, deeds)
    requires Distinct(engine.builder.sha, engine.builder.chunkSize, w, deeds, engine.store.chunks)
    requires generation !in engine.store.commits
    modifies engine, engine.store, engine.builder, engine.journal
    ensures generation !in engine.store.commits ==> r.Err?
    ensures generation in engine.store.commits ==>
              && i < |deeds| && deeds[i].Checkpointing?
              && Linked(Scene(engine.builder.sha, engine.builder.chunkSize, w, deeds, i).disk)
              && var s := FrozenAt(engine.builder.sha, engine.builder.chunkSize, w, deeds, i);
                 var es := FullEntries(engine.builder.sha, engine.builder.chunkSize, s);
                 && (r.Ok? <==> WithinLimits(es) && Arrives(es, arrival))
                 && (r.Ok? ==> RestoresExactly(r.value, s))
  {
    Live(engine, w, deeds);
    ghost var sha, size := engine.builder.sha, engine.builder.chunkSize;
    if generation !in engine.store.commits {
      return Err("Generation is not committed."), 0;
    }
    i :| i < |deeds| && deeds[i].Checkpointing?
         && FullReadAt(sha, size, w, deeds, i, engine.store.manifests[generation].entries);
    ScenesAreLinked(sha, size, w, deeds, i);
    assert PlausibleDeed(Scene(sha, size, w, deeds, i), deeds[i]);
    FrozenIsCollisionFree(sha, size, w, deeds, i, old(engine.store.chunks), engine.store.chunks);
    r := RestoreCommitted(engine.store, generation, id, at, arrival, size, FrozenAt(sha, size, w, deeds, i));
  }

  /** A deed that froze the workspace these entries are a full read of. */
  ghost function FreezingDeed(sha: Bytes -> Digest, size: nat, w: World, deeds: seq<Deed>,
                              entries: seq<Entry>): (i: nat)
    requires size > 0 && FullReadOf(sha, size, w, deeds, |deeds|, entries)
    ensures i < |deeds| && deeds[i].Checkpointing? && FullReadAt(sha, size, w, deeds, i, entries)
  {
    var i: nat :| i < |deeds| && deeds[i].Checkpointing? && FullReadAt(sha, size, w, deeds, i, entries);
    i
  }

  /** The workspaces the commits of a life are full reads of. */
  ghost function FrozenBy(sha: Bytes -> Digest, size: nat, w: World, deeds: seq<Deed>,
                          manifests: map<nat, Sealed>, commits: set<nat>): map<nat, Snapshot>
    requires size > 0 && CommitsAreFullReads(sha, size, w, deeds, |deeds|, {}, manifests, commits)
  {
    map g | g in commits ::
      FrozenAt(sha, size, w, deeds, FreezingDeed(sha, size, w, deeds, manifests[g].entries))
  }

  /** A store written during a life backs a restore. */
  lemma LifeBacks(store: Store, size: nat, w: World, deeds: seq<Deed>, before: map<Digest, Bytes>)
    requires size > 0 && Linked(w.disk) && Plausible(store.sha, size, w, deeds)
    requires Distinct(store.sha, size, w, deeds, before)
    requires OnlyAdds(before, store.chunks, LifePieces(store.sha, size, w, deeds))
    requires store.Valid() && Complete(store.chunks.Keys, store.manifests, store.commits)
    requires CommitsAreFullReads(store.sha, size, w, deeds, |deeds|, {}, store.manifests, store.commits.Keys)
    ensures Faithful(store, size, FrozenBy(store.sha, size, w, deeds, store.manifests, store.commits.Keys))
  {
    var frozen := FrozenBy(store.sha, size, w, deeds, store.manifests, store.commits.Keys);
    forall g | g in store.commits
      ensures g in frozen && WellFormed(frozen[g])
      ensures CollisionFree(store.sha, PiecesOf(frozen[g], size) + store.chunks.Values)
      ensures g in store.manifests && store.manifests[g].entries == FullEntries(store.sha, size, frozen[g])
    {
      var i := FreezingDeed(store.sha, size, w, deeds, store.manifests[g].entries);
      assert PlausibleDeed(Scene(store.sha, size, w, deeds, i), deeds[i]);
      FrozenIsCollisionFree(store.sha, size, w, deeds, i, before, store.chunks);
    }
  }

  /**
   A life of a new sandbox followed by a restore in a new container: whatever failed and
   whatever is lost on the way, the workspace ends as it was or as exactly what was frozen for
   the generation the report names, and the newest of the last two that arrives is that one
   whenever its swap can go through.
   */
  method LiveThenRecover(engine: Engine, w: World, deeds: seq<Deed>, ws: Install.Workspace<Blob>, names: seq<string>,
                         id: string, at: string, runtime: string, existing: bool, forced: bool, trial: nat -> Trial)
      returns (report: Install.Report, ghost b: Backing)
    requires engine.Valid() && !engine.paused && engine.builder.committed == map[] && engine.store.commits == map[]
    requires Linked(w.disk) && Plausible(engine.builder.sha, engine.builder.chunkSize, w, deeds)
    requires Distinct(engine.builder.sha, engine.builder.chunkSize, w, deeds, engine.store.chunks)
    requires Install.Lists(names, ws.tree)
    modifies engine, engine.store, engine.builder, engine.journal, ws
    ensures b.commits == engine.store.commits && b.runtime == runtime && b.trial == trial
    ensures CommitsAreFullReads(b.sha, engine.builder.chunkSize, w, deeds, |deeds|, {},
                                engine.store.manifests, b.commits.Keys)
    ensures b.frozen == FrozenBy(b.sha, engine.builder.chunkSize, w, deeds, engine.store.manifests, b.commits.Keys)
    ensures Truthful(report, b, old(ws.tree), ws.tree, ws.state)
    ensures Decided(report, b, names, existing, forced, old(ws.tree), old(ws.state), ws.state)
  {
    Live(engine, w, deeds);
    ghost var store, size := engine.store, engine.builder.chunkSize;
    assert old(engine.store.commits).Keys == {};
    LifeBacks(store, size, w, deeds, old(engine.store.chunks));
    b := Backing(store.commits, runtime, trial, store.sha, size,
                 FrozenBy(store.sha, size, w, deeds, store.manifests, store.commits.Keys));
    report := RestoreWorkspace(engine.store, ws, names, id, at, runtime, existing, forced, trial, b);
  }
}
