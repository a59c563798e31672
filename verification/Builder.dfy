/**
 `ManifestBuilder`: one pass over the frozen workspace that reuses the entries of
 files whose stamp did not change since the last committed generation.
 */
module Builder {
  import opened Base
  import opened Paths
  import opened Chunking
  import opened Manifest

  datatype Built = Built(generation: nat, entries: seq<Entry>, chunks: map<Digest, Bytes>, stamps: Cache)

  /** The manifest entries of a build, in manifest order. */
  function BuiltEntries(sha: Bytes -> Digest, size: nat, cache: Cache, s: Snapshot): seq<Entry>
    requires s.Listed() && size > 0
  {
    SortByPath(Entries(sha, size, cache, s, |s.walk|))
  }

  /** What a build returns, given the cache it starts from. */
  function Outcome(sha: Bytes -> Digest, size: nat, cache: Cache, s: Snapshot, now: int, generation: nat): Built
    requires s.Listed() && size > 0
  {
    Built(generation,
          BuiltEntries(sha, size, cache, s),
          Chunks(sha, size, cache, s, |s.walk|),
          Stamps(sha, size, cache, s, now, |s.walk|))
  }

  /** The `i`-th walked node is a recorded file. */
  predicate RecordsFile(s: Snapshot, i: nat)
    requires s.Listed()
  {
    i < |s.walk| && s.nodes[s.walk[i]].File? && Recorded(s.walk[i], s.nodes[s.walk[i]])
  }

  predicate ReusedAt(cache: Cache, s: Snapshot, i: nat)
    requires s.Listed() && RecordsFile(s, i)
  {
    Reuses(cache, Join(s.walk[i]), s.nodes[s.walk[i]])
  }

  /** Neither its content nor its metadata may have changed within the window before the build. */
  predicate Settled(n: Node, now: int)
    requires n.File?
  {
    n.mtime < now - RACY_WINDOW && n.ctime < now - RACY_WINDOW
  }

  /** What the next baseline says of one recorded file: its old entry, a new one if it has settled, or nothing. */
  predicate RemembersFile(sha: Bytes -> Digest, size: nat, cache: Cache, s: Snapshot, now: int, i: nat, stamps: Cache)
    requires s.Listed() && RecordsFile(s, i) && size > 0
  {
    var key, n := Join(s.walk[i]), s.nodes[s.walk[i]];
    if ReusedAt(cache, s, i) then key in stamps && stamps[key] == cache[key]
    else if Settled(n, now) then key in stamps && stamps[key] == Cached(StampOf(n), FileEntry(sha, size, key, n))
    else key !in stamps
  }

  /** The baseline says that of the first `n` walked nodes that are recorded files, and nothing else. */
  ghost predicate RemembersAll(sha: Bytes -> Digest, size: nat, cache: Cache, s: Snapshot, now: int, n: nat,
                               stamps: Cache)
    requires s.Listed() && size > 0
  {
    EachRemembered(sha, size, cache, s, now, n, stamps) && forall key | key in stamps :: NamesFile(s, n, key)
  }

  predicate EachRemembered(sha: Bytes -> Digest, size: nat, cache: Cache, s: Snapshot, now: int, n: nat,
                           stamps: Cache)
    requires s.Listed() && size > 0
  {
    forall i: nat | i < n && RecordsFile(s, i) :: RemembersFile(sha, size, cache, s, now, i, stamps)
  }

  ghost predicate NamesFile(s: Snapshot, n: nat, key: string)
    requires s.Listed()
  {
    exists i: nat :: i < n && RecordsFile(s, i) && Join(s.walk[i]) == key
  }

  /** What a build offers as the next baseline. */
  lemma {:induction false} BaselineIs(sha: Bytes -> Digest, size: nat, cache: Cache, s: Snapshot, now: int, walked: nat,
                                      stamps: Cache)
    requires s.Listed() && walked <= |s.walk| && size > 0 && stamps == Stamps(sha, size, cache, s, now, walked)
    ensures RemembersAll(sha, size, cache, s, now, walked, stamps)
    decreases walked
  {
    if walked == 0 {
      NothingRemembered(sha, size, cache, s, now, walked, stamps);
    } else {
      var before := Stamps(sha, size, cache, s, now, walked - 1);
      BaselineIs(sha, size, cache, s, now, walked - 1, before);
      StampsStep(sha, size, cache, s, now, walked - 1, walked, before, stamps);
      OneMoreRemembered(sha, size, cache, s, now, walked - 1, walked, before, stamps);
    }
  }

  lemma NothingRemembered(sha: Bytes -> Digest, size: nat, cache: Cache, s: Snapshot, now: int, walked: nat,
                          stamps: Cache)
    requires s.Listed() && walked == 0 && size > 0 && stamps == map[]
    ensures RemembersAll(sha, size, cache, s, now, walked, stamps)
  {
  }

  /** One more node's part of the baseline. */
  predicate StampedNext(sha: Bytes -> Digest, size: nat, cache: Cache, s: Snapshot, now: int, n: nat, before: Cache,
                        after: Cache)
    requires s.Listed() && n < |s.walk| && size > 0
  {
    after == if RecordsFile(s, n) then StampedFile(sha, size, cache, before, s.walk[n], s.nodes[s.walk[n]], now)
             else before
  }

  lemma StampsStep(sha: Bytes -> Digest, size: nat, cache: Cache, s: Snapshot, now: int, n: nat, walked: nat,
                   before: Cache, after: Cache)
    requires s.Listed() && n < |s.walk| && walked == n + 1 && size > 0
    requires before == Stamps(sha, size, cache, s, now, n) && after == Stamps(sha, size, cache, s, now, walked)
    ensures StampedNext(sha, size, cache, s, now, n, before, after)
  {
  }

  lemma KeysDiffer(s: Snapshot, n: nat)
    requires s.Listed() && n < |s.walk|
    ensures forall i: nat | i < n :: Join(s.walk[i]) != Join(s.walk[n])
  {
    forall i: nat | i < n
      ensures Join(s.walk[i]) != Join(s.walk[n])
    {
      if Join(s.walk[i]) == Join(s.walk[n]) { JoinInjective(s.walk[i], s.walk[n]); }
    }
  }

  lemma OneMoreRemembered(sha: Bytes -> Digest, size: nat, cache: Cache, s: Snapshot, now: int, n: nat, walked: nat,
                          before: Cache, after: Cache)
    requires s.Listed() && n < |s.walk| && walked == n + 1 && size > 0
    requires RemembersAll(sha, size, cache, s, now, n, before)
    requires StampedNext(sha, size, cache, s, now, n, before, after)
    ensures RemembersAll(sha, size, cache, s, now, walked, after)
  {
    KeysDiffer(s, n);
    assert !NamesFile(s, n, Join(s.walk[n]));
    EachStays(sha, size, cache, s, now, n, walked, before, after);
    NamesRemembered(sha, size, cache, s, now, n, walked, before, after);
  }

  lemma EachStays(sha: Bytes -> Digest, size: nat, cache: Cache, s: Snapshot, now: int, n: nat, walked: nat,
                  before: Cache, after: Cache)
    requires s.Listed() && n < |s.walk| && walked == n + 1 && size > 0 && Join(s.walk[n]) !in before
    requires forall i: nat | i < n :: Join(s.walk[i]) != Join(s.walk[n])
    requires EachRemembered(sha, size, cache, s, now, n, before)
    requires StampedNext(sha, size, cache, s, now, n, before, after)
    ensures EachRemembered(sha, size, cache, s, now, walked, after)
  {
    forall i: nat | i < walked && RecordsFile(s, i)
      ensures RemembersFile(sha, size, cache, s, now, i, after)
    {
      if i < n {
        StillRemembered(sha, size, cache, s, now, i, n, before, after);
      } else {
        NowRemembered(sha, size, cache, s, now, n, before, after);
      }
    }
  }

  lemma StillRemembered(sha: Bytes -> Digest, size: nat, cache: Cache, s: Snapshot, now: int, i: nat, n: nat,
                        before: Cache, after: Cache)
    requires s.Listed() && i < n < |s.walk| && size > 0 && RecordsFile(s, i) && Join(s.walk[i]) != Join(s.walk[n])
    requires StampedNext(sha, size, cache, s, now, n, before, after)
    requires RemembersFile(sha, size, cache, s, now, i, before)
    ensures RemembersFile(sha, size, cache, s, now, i, after)
  {
  }

  lemma NowRemembered(sha: Bytes -> Digest, size: nat, cache: Cache, s: Snapshot, now: int, n: nat, before: Cache,
                      after: Cache)
    requires s.Listed() && size > 0 && RecordsFile(s, n) && Join(s.walk[n]) !in before
    requires StampedNext(sha, size, cache, s, now, n, before, after)
    ensures RemembersFile(sha, size, cache, s, now, n, after)
  {
  }

  lemma NamesRemembered(sha: Bytes -> Digest, size: nat, cache: Cache, s: Snapshot, now: int, n: nat, walked: nat,
                        before: Cache, after: Cache)
    requires s.Listed() && n < |s.walk| && walked == n + 1 && size > 0
    requires forall key | key in before :: NamesFile(s, n, key)
    requires StampedNext(sha, size, cache, s, now, n, before, after)
    ensures forall key | key in after :: NamesFile(s, walked, key)
  {
    forall key | key in after
      ensures NamesFile(s, walked, key)
    {
      if key in before {
        NamedBefore(s, n, walked, key);
      } else {
        assert RecordsFile(s, n) && key == Join(s.walk[n]);
      }
    }
  }

  lemma NamedBefore(s: Snapshot, n: nat, walked: nat, key: string)
    requires s.Listed() && n <= walked && NamesFile(s, n, key)
    ensures NamesFile(s, walked, key)
  {
  }

  /** The `i`-th walked node is a recorded file that is read, and this is a digest of one of its pieces. */
  predicate ReadsPiece(sha: Bytes -> Digest, size: nat, cache: Cache, s: Snapshot, i: nat, d: Digest)
    requires s.Listed() && size > 0
  {
    && RecordsFile(s, i) && !ReusedAt(cache, s, i)
    && d in Digests(sha, Pieces(s.nodes[s.walk[i]].content, size))
  }

  ghost predicate ReadsAmong(sha: Bytes -> Digest, size: nat, cache: Cache, s: Snapshot, n: nat, d: Digest)
    requires s.Listed() && size > 0
  {
    exists i: nat :: i < n && ReadsPiece(sha, size, cache, s, i, d)
  }

  lemma ReadsOneMore(sha: Bytes -> Digest, size: nat, cache: Cache, s: Snapshot, n: nat, walked: nat, d: Digest)
    requires s.Listed() && walked == n + 1 && size > 0
    ensures ReadsAmong(sha, size, cache, s, walked, d)
            <==> ReadsAmong(sha, size, cache, s, n, d) || ReadsPiece(sha, size, cache, s, n, d)
  {
  }

  /** The upload set holds the pieces of exactly those recorded files that are read. */
  lemma {:induction false} UploadSetIs(sha: Bytes -> Digest, size: nat, cache: Cache, s: Snapshot, walked: nat,
                                       d: Digest)
    requires s.Listed() && walked <= |s.walk| && size > 0
    ensures d in Chunks(sha, size, cache, s, walked) <==> ReadsAmong(sha, size, cache, s, walked, d)
    decreases walked
  {
    if walked > 0 {
      UploadSetIs(sha, size, cache, s, walked - 1, d);
      UploadSetStep(sha, size, cache, s, walked - 1, walked, d);
      ReadsOneMore(sha, size, cache, s, walked - 1, walked, d);
    }
  }

  lemma UploadSetStep(sha: Bytes -> Digest, size: nat, cache: Cache, s: Snapshot, n: nat, walked: nat, d: Digest)
    requires s.Listed() && n < |s.walk| && walked == n + 1 && size > 0
    ensures d in Chunks(sha, size, cache, s, walked)
            <==> d in Chunks(sha, size, cache, s, n) || ReadsPiece(sha, size, cache, s, n, d)
  {
    var node := s.nodes[s.walk[n]];
    if node.File? {
      AddPiecesKeys(sha, Chunks(sha, size, cache, s, n), Pieces(node.content, size), d);
    }
  }

  lemma {:induction false} AddPiecesKeys(sha: Bytes -> Digest, chunks: map<Digest, Bytes>, pieces: seq<Bytes>,
                                         d: Digest)
    ensures d in AddPieces(sha, chunks, pieces) <==> d in chunks || d in Digests(sha, pieces)
    decreases |pieces|
  {
    if pieces != [] {
      var front := pieces[..|pieces| - 1];
      AddPiecesKeys(sha, chunks, front, d);
      assert Digests(sha, pieces) == Digests(sha, front) + [sha(pieces[|pieces| - 1])];
    }
  }

  /** One more piece of a file: its digest, its bytes and its place in the upload set. */
  lemma OneMorePiece(sha: Bytes -> Digest, before: map<Digest, Bytes>, pieces: seq<Bytes>, k: nat)
    requires k < |pieces|
    ensures Digests(sha, pieces[..k + 1]) == Digests(sha, pieces[..k]) + [sha(pieces[k])]
    ensures Concat(pieces[..k + 1]) == Concat(pieces[..k]) + pieces[k]
    ensures AddPieces(sha, before, pieces[..k + 1])
            == var so := AddPieces(sha, before, pieces[..k]);
               if sha(pieces[k]) in so then so else so[sha(pieces[k]) := pieces[k]]
  {
    ConcatSnoc(pieces[..k], pieces[k]);
    assert pieces[..k + 1] == pieces[..k] + [pieces[k]];
    assert pieces[..k + 1][..k] == pieces[..k];
  }

  class ManifestBuilder {
    const sha: Bytes -> Digest
    const chunkSize: nat
    /** Entries of the last committed generation with the stamps they were read under. */
    var committed: Cache

    ghost predicate Valid() { chunkSize > 0 }

    constructor (sha: Bytes -> Digest, chunkSize: nat)
      requires chunkSize > 0
      ensures Valid() && committed == map[] && this.sha == sha && this.chunkSize == chunkSize
    {
      this.sha := sha;
      this.chunkSize := chunkSize;
      committed := map[];
    }

    method Remember(built: Built)
      modifies this
      ensures committed == built.stamps
    {
      committed := built.stamps;
    }

    method Forget()
      modifies this
      ensures committed == map[]
    {
      committed := map[];
    }

    /** Read a file piece by piece until the end. */
    method ReadChunks(content: Bytes) returns (pieces: seq<Bytes>)
      requires Valid()
      ensures pieces == Pieces(content, chunkSize)
    {
      pieces := [];
      var offset := 0;
      while offset < |content|
        invariant 0 <= offset <= |content|
        invariant offset < |content| ==> pieces + Pieces(content[offset..], chunkSize) == Pieces(content, chunkSize)
        invariant offset == |content| > 0 ==> pieces == Pieces(content, chunkSize)
        invariant content == [] ==> pieces == []
      {
        var rest := content[offset..];
        var take := if |rest| < chunkSize then |rest| else chunkSize;
        pieces := pieces + [rest[..take]];
        offset := offset + take;
        assert rest[take..] == content[offset..];
        assert take == |rest| ==> rest[..take] == rest;
      }
      if pieces == [] {
        pieces := [[]];
      }
    }

    /** Hash a file's pieces and add the new ones to the upload set. */
    method ReadFile(key: string, n: Node, before: map<Digest, Bytes>)
        returns (entry: Entry, chunks: map<Digest, Bytes>)
      requires Valid() && n.File?
      ensures entry == FileEntry(sha, chunkSize, key, n)
      ensures chunks == AddPieces(sha, before, Pieces(n.content, chunkSize))
    {
      var pieces := ReadChunks(n.content);
      var digests, whole := [], [];
      chunks := before;
      for k := 0 to |pieces|
        invariant digests == Digests(sha, pieces[..k])
        invariant whole == Concat(pieces[..k])
        invariant chunks == AddPieces(sha, before, pieces[..k])
      {
        OneMorePiece(sha, before, pieces, k);
        var digest := sha(pieces[k]);
        if digest !in chunks {
          chunks := chunks[digest := pieces[k]];
        }
        digests := digests + [digest];
        whole := whole + pieces[k];
      }
      assert pieces[..|pieces|] == pieces;
      ConcatPieces(n.content, chunkSize);
      entry := Entry(key, FileKind, n.mode, n.mtime, |n.content|, Some(sha(whole)), digests, None);
    }

    /** One walked file: taken from the baseline if its stamp did not change, read otherwise. */
    method VisitFile(p: Path, n: Node, now: int, chunks: map<Digest, Bytes>, stamps: Cache)
        returns (entry: Entry, chunks': map<Digest, Bytes>, stamps': Cache)
      requires Valid() && n.File?
      ensures entry == EntryOf(sha, chunkSize, committed, p, n)
      ensures chunks' == if Reuses(committed, Join(p), n) then chunks
                         else AddPieces(sha, chunks, Pieces(n.content, chunkSize))
      ensures stamps' == StampedFile(sha, chunkSize, committed, stamps, p, n, now)
    {
      var key, stamp := Join(p), StampOf(n);
      chunks', stamps' := chunks, stamps;
      if key in committed && committed[key].stamp == stamp {
        entry := committed[key].entry;
        stamps' := stamps[key := committed[key]];
      } else {
        entry, chunks' := ReadFile(key, n, chunks);
        var racyAfter := now - RACY_WINDOW;
        if n.mtime < racyAfter && n.ctime < racyAfter {
          stamps' := stamps[key := Cached(stamp, entry)];
        }
      }
    }

    /** One walked node that is not a file: a directory, or a link if it stays inside. */
    method VisitOther(p: Path, n: Node, entries: seq<Entry>) returns (entries': seq<Entry>)
      requires Valid() && !n.File? && p != [] && Includes(p)
      ensures entries' == if Recorded(p, n) then entries + [EntryOf(sha, chunkSize, committed, p, n)] else entries
    {
      match n {
        case Directory(mode, mtime) =>
          entries' := entries + [Entry(Join(p), DirectoryKind, mode, mtime, 0, None, [], None)];
        case Symlink(target, mode, mtime) =>
          entries' := entries;
          var safe := SafeSymlinkTarget(p, target);
          if safe {
            var length := Utf8Length(target);
            entries' := entries + [Entry(Join(p), SymlinkKind, mode, mtime, length, None, [], Some(target))];
          }
      }
    }

    method Build(generation: nat, s: Snapshot, now: int) returns (r: Result<Built, string>)
      requires Valid() && s.Listed()
      ensures r.Err? <==> generation == 0
      ensures r.Ok? ==> r.value == Outcome(sha, chunkSize, committed, s, now, generation)
    {
      if generation == 0 {
        return Err("Positive generation and sandbox ID are required.");
      }
      var entries: seq<Entry>, chunks: map<Digest, Bytes>, stamps: Cache := [], map[], map[];
      for w := 0 to |s.walk|
        invariant entries == Entries(sha, chunkSize, committed, s, w)
        invariant chunks == Chunks(sha, chunkSize, committed, s, w)
        invariant stamps == Stamps(sha, chunkSize, committed, s, now, w)
      {
        var path := s.walk[w];
        var node := s.nodes[path];
        if !Includes(path) {
          continue;
        }
        if node.File? {
          var entry;
          entry, chunks, stamps := VisitFile(path, node, now, chunks, stamps);
          entries := entries + [entry];
        } else {
          entries := VisitOther(path, node, entries);
        }
      }
      r := Ok(Built(generation, SortByPath(entries), chunks, stamps));
    }
  }
}
