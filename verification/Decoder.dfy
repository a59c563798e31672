/**
 Printing a manifest and `ManifestDecoder`: what the decoder accepts, and that it
 gives back exactly what the builder printed.
 */
module Decoder {
  import opened Base
  import opened Paths
  import opened Manifest

  const SCHEMA := 1
  const MAX_FILES: nat := 100_000
  const MAX_BYTES: nat := 50 * 1024 * 1024 * 1024
  const MAX_MODE := 4095

  const CATEGORIES: seq<string> := [
    "configuration", "agents", "workspace-projects", "memory", "knowledge", "artifacts", "skills",
    "conversation-session-metadata", "scheduled-jobs", "kiro-credential-state", "user-durable-state" ]

  /** One entry of the JSON document; absent fields are None or empty. */
  datatype RawEntry = RawEntry(
    path: string, kind: string, mode: int, mtime: int, size: int,
    digest: Option<string>, chunks: seq<string>, target: Option<string>)

  datatype RawManifest = RawManifest(
    schema: int, sandboxId: string, generation: int, createdAt: string,
    categories: Option<seq<string>>, entries: seq<RawEntry>)

  // -------------------------------------------------------------- printing

  function KindName(k: Kind): string
  {
    match k
    case FileKind => "file"
    case DirectoryKind => "directory"
    case SymlinkKind => "symlink"
  }

  /** `ManifestEntry.as_dict`. */
  function AsRaw(e: Entry): RawEntry
  {
    RawEntry(e.path, KindName(e.kind), e.mode, e.mtime, e.size, e.digest, e.chunks, e.target)
  }

  function AllRaw(es: seq<Entry>): (raws: seq<RawEntry>)
    ensures |raws| == |es| && forall i | 0 <= i < |es| :: raws[i] == AsRaw(es[i])
  {
    seq(|es|, i requires 0 <= i < |es| => AsRaw(es[i]))
  }

  /** `PersistenceManifest.to_json`, as the JSON value. */
  function Printed(es: seq<Entry>, sandboxId: string, generation: nat, createdAt: string): RawManifest
  {
    RawManifest(SCHEMA, sandboxId, generation, createdAt, Some(CATEGORIES), AllRaw(es))
  }

  // -------------------------------------------------------------- decoding

  /** `ManifestMigrator`: schema 0 gains the default categories, anything else must be current. */
  function Migrate(raw: RawManifest): Result<RawManifest, string>
  {
    if raw.schema == SCHEMA then Ok(raw)
    else if raw.schema == 0 then
      Ok(raw.(schema := SCHEMA, categories := if raw.categories.None? then Some(CATEGORIES) else raw.categories))
    else Err("Manifest schema version is unsupported.")
  }

  predicate GoodMetadata(raw: RawEntry)
  {
    && raw.kind in {"file", "directory", "symlink"}
    && 0 <= raw.mode <= MAX_MODE && 0 <= raw.mtime && 0 <= raw.size
  }

  predicate GoodShape(raw: RawEntry)
    requires GoodMetadata(raw)
  {
    && (forall i | 0 <= i < |raw.chunks| :: IsDigest(raw.chunks[i]))
    && if raw.kind == "file" then
         raw.digest.Some? && IsDigest(raw.digest.value) && raw.chunks != [] && raw.target.None?
       else if raw.kind == "directory" then
         raw.size == 0 && raw.digest.None? && raw.chunks == [] && raw.target.None?
       else
         && raw.digest.None? && raw.chunks == [] && raw.target.Some?
         && StaysInside(Split(raw.path), raw.target.value)
  }

  /** `_entry`: an error, an entry the policy now skips, or a valid entry. */
  function DecodeEntry(raw: RawEntry): Result<Option<Entry>, string>
  {
    if !GoodMetadata(raw) then Err("Manifest entry metadata is invalid.")
    else if !Proper(Split(raw.path)) || !Covers(Split(raw.path)) then Err("Manifest path is outside durable roots.")
    else if !Includes(Split(raw.path)) then Ok(None)
    else if !GoodShape(raw) then Err("Manifest entry is invalid.")
    else
      var kind :=
        if raw.kind == "file" then FileKind else if raw.kind == "directory" then DirectoryKind else SymlinkKind;
      Ok(Some(Entry(raw.path, kind, raw.mode, raw.mtime, raw.size, raw.digest, raw.chunks, raw.target)))
  }

  /** Where an entry may go: a path in normal form below a durable root that never goes up. */
  ghost predicate InDurableRoots(path: string)
  {
    && (forall part | part in Split(path) :: part != "" && part != "." && part != "..")
    && exists k, below: Path :: 0 <= k < |ROOTS| && Split(path) == ROOTS[k] + below
  }

  /** What an entry of its kind must and must not carry. */
  predicate FitsItsKind(raw: RawEntry)
  {
    match raw.kind
    case "file" =>
      && raw.digest.Some? && IsDigest(raw.digest.value) && raw.target == None
      && raw.chunks != [] && forall d | d in raw.chunks :: IsDigest(d)
    case "directory" => raw.size == 0 && raw.digest == None && raw.chunks == [] && raw.target == None
    case "symlink" =>
      && raw.digest == None && raw.chunks == [] && raw.target.Some? && !Absolute(raw.target.value)
      && NeverAbove(|Split(raw.path)| - 1, Split(raw.target.value))
    case _ => false
  }

  /**
   Exactly the sound entries inside the policy decode, to themselves; a covered one the policy
   excludes is skipped, whatever else it carries; everything else is refused.
   */
  lemma DecodesIffSound(raw: RawEntry)
    ensures var r := DecodeEntry(raw);
            var sane := && raw.kind in {"file", "directory", "symlink"} && raw.mtime >= 0 && raw.size >= 0
                        && 0 <= raw.mode <= 4095 && InDurableRoots(raw.path);
            && (r.Ok? <==> sane && (!Includes(Split(raw.path)) || FitsItsKind(raw)))
            && (r.Ok? ==> (r.value.Some? <==> Includes(Split(raw.path))))
            && (r.Ok? && r.value.Some? ==> AsRaw(r.value.value) == raw)
  {
    DurableRootsIff(raw.path);
    if raw.target.Some? {
      StaysInsideCounts(Split(raw.path), raw.target.value);
    }
  }

  lemma DurableRootsIff(path: string)
    ensures InDurableRoots(path) <==> Proper(Split(path)) && Covers(Split(path))
  {
    CoversIff(Split(path));
    ProperIff(path);
  }

  lemma ProperIff(text: string)
    ensures Proper(Split(text)) <==> forall part | part in Split(text) :: part != "" && part != "."
  {
    if forall part | part in Split(text) :: part != "" && part != "." {
      assert forall i | 0 <= i < |Split(text)| :: Split(text)[i] in Split(text);
    }
  }

  lemma CoversIff(path: Path)
    ensures Covers(path) <==> ".." !in path && exists k, below: Path :: 0 <= k < |ROOTS| && path == ROOTS[k] + below
  {
    if k :| 0 <= k < |ROOTS| && Under(ROOTS[k], path) {
      assert path == ROOTS[k] + path[|ROOTS[k]|..];
    }
    if k, below: Path :| 0 <= k < |ROOTS| && path == ROOTS[k] + below {
      assert Under(ROOTS[k], path);
    }
  }

  /** What decoding one entry gives; the collecting loop does not depend on the policy behind it. */
  type EntryDecoder = RawEntry -> Result<Option<Entry>, string>

  /** The entries kept among the first `n`. */
  function Kept(decode: EntryDecoder, raws: seq<RawEntry>, n: nat): seq<Entry>
    requires n <= |raws|
  {
    if n == 0 then []
    else
      var before := Kept(decode, raws, n - 1);
      var one := decode(raws[n - 1]);
      if one.Ok? && one.value.Some? then before + [one.value.value] else before
  }

  function TotalSize(es: seq<Entry>): nat
  {
    if es == [] then 0 else TotalSize(es[..|es| - 1]) + es[|es| - 1].size
  }

  predicate AllDecode(decode: EntryDecoder, raws: seq<RawEntry>)
  {
    forall i | 0 <= i < |raws| :: decode(raws[i]).Ok?
  }

  /** Every entry decodes, kept paths strictly increase, and the sizes fit. */
  predicate Acceptable(decode: EntryDecoder, raws: seq<RawEntry>)
  {
    && AllDecode(decode, raws)
    && Sorted(Kept(decode, raws, |raws|))
    && TotalSize(Kept(decode, raws, |raws|)) <= MAX_BYTES
  }

  /** Everything the decoder demands of a manifest. */
  predicate Accepts(raw: RawManifest, sandboxId: string, generation: nat)
  {
    var m := Migrate(raw);
    && m.Ok?
    && m.value.sandboxId == sandboxId && m.value.generation == generation
    && m.value.categories == Some(CATEGORIES)
    && |m.value.entries| <= MAX_FILES
    && Acceptable(DecodeEntry, m.value.entries)
  }

  /** Nothing but a manifest of this sandbox and generation, of a known schema and within the limits, is accepted. */
  lemma AcceptsOnlyItsOwn(raw: RawManifest, sandboxId: string, generation: nat)
    requires Accepts(raw, sandboxId, generation)
    ensures raw.sandboxId == sandboxId && raw.generation == generation && |raw.entries| <= 100_000
    ensures raw.schema == 1 || raw.schema == 0
    ensures raw.categories == Some(CATEGORIES) || (raw.schema == 0 && raw.categories == None)
    ensures forall i | 0 <= i < |raw.entries| :: DecodeEntry(raw.entries[i]).Ok?
  {
  }

  /** A manifest of the old schema is accepted exactly if it is as one of the current, with default categories. */
  lemma OldManifestsMigrate(raw: RawManifest, sandboxId: string, generation: nat)
    requires raw.schema == 0
    ensures var migrated := raw.(schema := 1, categories := if raw.categories == None then Some(CATEGORIES)
                                                            else raw.categories);
            Accepts(raw, sandboxId, generation) <==> Accepts(migrated, sandboxId, generation)
  {
  }

  lemma KeptStep(decode: EntryDecoder, raws: seq<RawEntry>, n: nat)
    requires n < |raws|
    ensures var one := decode(raws[n]);
            Kept(decode, raws, n + 1)
            == Kept(decode, raws, n) + if one.Ok? && one.value.Some? then [one.value.value] else []
  {
    assert Kept(decode, raws, n) + [] == Kept(decode, raws, n);
  }

  lemma {:induction false} KeptPrefix(decode: EntryDecoder, raws: seq<RawEntry>, n: nat, m: nat)
    requires n <= m <= |raws|
    ensures Kept(decode, raws, n) <= Kept(decode, raws, m)
    decreases m
  {
    if n < m {
      KeptPrefix(decode, raws, n, m - 1);
      KeptStep(decode, raws, m - 1);
    }
  }

  /** What the first `n` entries weigh. */
  function Weight(decode: EntryDecoder, raws: seq<RawEntry>, n: nat): nat
    requires n <= |raws|
  {
    TotalSize(Kept(decode, raws, n))
  }

  lemma {:induction false} SizesGrow(decode: EntryDecoder, raws: seq<RawEntry>, n: nat, m: nat)
    requires n <= m <= |raws|
    ensures Weight(decode, raws, n) <= Weight(decode, raws, m)
    decreases m - n
  {
    if n < m {
      SizeStep(decode, raws, n, n + 1);
      SizesGrow(decode, raws, n + 1, m);
    }
  }

  lemma SizeStep(decode: EntryDecoder, raws: seq<RawEntry>, n: nat, next: nat)
    requires n < |raws| && next == n + 1
    ensures Weight(decode, raws, n) <= Weight(decode, raws, next)
  {
    var one, before := decode(raws[n]), Kept(decode, raws, n);
    KeptStep(decode, raws, n);
    if one.Ok? && one.value.Some? {
      TotalSizeSnoc(before, one.value.value);
    } else {
      assert before + [] == before;
    }
  }

  lemma RepeatedPathIsUnsorted(es: seq<Entry>, i: nat, j: nat)
    requires i < j < |es| && es[i].path == es[j].path
    ensures !Sorted(es)
  {
    LessIrreflexive(es[i].path);
  }

  lemma RepeatRefutes(decode: EntryDecoder, raws: seq<RawEntry>, n: nat, i: nat, e: Entry)
    requires n < |raws| && Kept(decode, raws, n + 1) == Kept(decode, raws, n) + [e]
    requires i < |Kept(decode, raws, n)| && Kept(decode, raws, n)[i].path == e.path
    ensures !Acceptable(decode, raws)
  {
    KeptPrefix(decode, raws, n + 1, |raws|);
    RepeatedPathIsUnsorted(Kept(decode, raws, |raws|), i, |Kept(decode, raws, n)|);
  }

  lemma ExcessRefutes(decode: EntryDecoder, raws: seq<RawEntry>, n: nat, e: Entry)
    requires n < |raws| && Kept(decode, raws, n + 1) == Kept(decode, raws, n) + [e]
    requires TotalSize(Kept(decode, raws, n)) + e.size > MAX_BYTES
    ensures !Acceptable(decode, raws)
  {
    TotalSizeSnoc(Kept(decode, raws, n), e);
    SizesGrow(decode, raws, n + 1, |raws|);
  }

  lemma TotalSizeSnoc(es: seq<Entry>, e: Entry)
    ensures TotalSize(es + [e]) == TotalSize(es) + e.size
  {
    assert (es + [e])[..|es|] == es;
  }

  function PathSet(es: seq<Entry>): set<string> { set e | e in es :: e.path }

  lemma PathSetSnoc(es: seq<Entry>, e: Entry)
    ensures PathSet(es + [e]) == PathSet(es) + {e.path}
  {
  }

  lemma SeenAt(es: seq<Entry>, path: string) returns (i: nat)
    requires path in PathSet(es)
    ensures i < |es| && es[i].path == path
  {
    var e :| e in es && e.path == path;
    i :| i < |es| && es[i] == e;
  }

  /** What the loop has after `n` records. */
  ghost predicate Collected(decode: EntryDecoder, raws: seq<RawEntry>, n: nat,
                            entries: seq<Entry>, seen: set<string>, total: nat)
  {
    && n <= |raws| && entries == Kept(decode, raws, n) && seen == PathSet(entries)
    && total == TotalSize(entries) <= MAX_BYTES && AllDecode(decode, raws[..n])
  }

  lemma DecodeOneMore(decode: EntryDecoder, raws: seq<RawEntry>, n: nat)
    requires n < |raws| && AllDecode(decode, raws[..n]) && decode(raws[n]).Ok?
    ensures AllDecode(decode, raws[..n + 1])
  {
    assert raws[..n + 1] == raws[..n] + [raws[n]];
  }

  lemma SkippedRecord(decode: EntryDecoder, raws: seq<RawEntry>, n: nat, entries: seq<Entry>, seen: set<string>,
                      total: nat)
    requires n < |raws| && Collected(decode, raws, n, entries, seen, total) && decode(raws[n]) == Ok(None)
    ensures Collected(decode, raws, n + 1, entries, seen, total)
  {
    KeptStep(decode, raws, n);
    DecodeOneMore(decode, raws, n);
  }

  lemma CollectedRecord(decode: EntryDecoder, raws: seq<RawEntry>, n: nat, entries: seq<Entry>, seen: set<string>,
                        total: nat, e: Entry)
    requires n < |raws| && Collected(decode, raws, n, entries, seen, total) && decode(raws[n]) == Ok(Some(e))
    requires total + e.size <= MAX_BYTES
    ensures Collected(decode, raws, n + 1, entries + [e], seen + {e.path}, total + e.size)
  {
    KeptStep(decode, raws, n);
    DecodeOneMore(decode, raws, n);
    PathSetSnoc(entries, e);
    TotalSizeSnoc(entries, e);
  }

  lemma RefusedRecord(decode: EntryDecoder, raws: seq<RawEntry>, n: nat, entries: seq<Entry>, seen: set<string>,
                      total: nat, e: Entry)
    requires n < |raws| && Collected(decode, raws, n, entries, seen, total) && decode(raws[n]) == Ok(Some(e))
    requires e.path in seen || total + e.size > MAX_BYTES
    ensures !Acceptable(decode, raws)
  {
    KeptStep(decode, raws, n);
    if e.path in seen {
      var i := SeenAt(entries, e.path);
      RepeatRefutes(decode, raws, n, i, e);
    } else {
      ExcessRefutes(decode, raws, n, e);
    }
  }

  method Collect(decode: EntryDecoder, raws: seq<RawEntry>) returns (r: Result<seq<Entry>, string>)
    ensures r.Ok? <==> Acceptable(decode, raws)
    ensures r.Ok? ==> r.value == Kept(decode, raws, |raws|)
  {
    var entries: seq<Entry> := [];
    var seen: set<string> := {};
    var total: nat := 0;
    for n := 0 to |raws|
      invariant Collected(decode, raws, n, entries, seen, total)
    {
      var one := decode(raws[n]);
      if one.Err? {
        return Err(one.error);
      }
      if one.value.None? {
        SkippedRecord(decode, raws, n, entries, seen, total);
        continue;
      }
      var entry := one.value.value;
      if entry.path in seen {
        RefusedRecord(decode, raws, n, entries, seen, total, entry);
        return Err("Manifest paths must be unique.");
      }
      if total + entry.size > MAX_BYTES {
        RefusedRecord(decode, raws, n, entries, seen, total, entry);
        return Err("Manifest exceeds the restore size limit.");
      }
      CollectedRecord(decode, raws, n, entries, seen, total, entry);
      seen := seen + {entry.path};
      total := total + entry.size;
      entries := entries + [entry];
    }
    assert raws[..|raws|] == raws;
    if !Sorted(entries) {
      return Err("Manifest entries must be sorted.");
    }
    r := Ok(entries);
  }

  /** `decode`: succeeds exactly on acceptable manifests and returns the entries the policy keeps. */
  method Decode(raw: RawManifest, sandboxId: string, generation: nat) returns (r: Result<seq<Entry>, string>)
    ensures r.Ok? <==> Accepts(raw, sandboxId, generation)
    ensures r.Ok? ==> r.value == Kept(DecodeEntry, raw.entries, |raw.entries|)
  {
    var migrated := Migrate(raw);
    if migrated.Err? {
      return Err(migrated.error);
    }
    var value := migrated.value;
    if value.sandboxId != sandboxId || value.generation != generation {
      return Err("Manifest sandbox or generation does not match.");
    }
    if value.categories != Some(CATEGORIES) || |value.entries| > MAX_FILES {
      return Err("Manifest metadata or limits are invalid.");
    }
    r := Collect(DecodeEntry, value.entries);
  }
}
