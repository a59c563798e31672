/**
 Several checkpoint writers on one store, each building from its own baseline and with its
 own chunk index, every storage operation a step of its own that may be lost either way.
 */
module Writers {
  import opened Base
  import opened Chunking
  import opened Manifest
  import opened Builder
  import opened DurableStore
  import opened CheckpointEngine

  /** What every writer shares: the digest, the piece size and the digest of an encoded manifest. */
  datatype Setup = Setup(sha: Bytes -> Digest, size: nat, seal: (nat, seq<Entry>) -> Digest)

  /** A checkpoint under way: its build, its sealed manifest, and how far it got. */
  datatype Job = Job(built: Built, blob: Sealed, confirmed: set<Digest>, sealed: bool, checked: bool)

  /** A container's view: the chunks its index lists and the baseline its builder reuses. */
  datatype Writer = Writer(index: Option<set<Digest>>, baseline: Cache, job: Option<Job>)

  datatype Shared = Shared(chunks: set<Digest>, manifests: map<nat, Sealed>, commits: map<nat, Digest>,
                           writers: map<nat, Writer>)

  datatype Step =
    | Replace(w: nat)
    | ListChunks(w: nat)
    | Begin(w: nat, generation: nat, frozen: Snapshot, now: int)
    | Confirm(w: nat, digest: Digest)
    | Upload(w: nat, digest: Digest, fault: Fault)
    | PutManifest(w: nat, fault: Fault)
    | CheckCommit(w: nat)
    | PutCommit(w: nat, fault: Fault)
    | Abandon(w: nat)

  function With(s: Shared, w: nat, writer: Writer): Shared { s.(writers := s.writers[w := writer]) }

  predicate Busy(s: Shared, w: nat) { w in s.writers && s.writers[w].job.Some? }

  /** Build this frozen workspace from the writer's own baseline. */
  function Begun(setup: Setup, s: Shared, w: nat, generation: nat, frozen: Snapshot, now: int): Shared
    requires setup.size > 0 && w in s.writers && frozen.Listed()
  {
    var built := Outcome(setup.sha, setup.size, s.writers[w].baseline, frozen, now, generation);
    var blob := Sealed(setup.seal(generation, built.entries), built.entries);
    With(s, w, s.writers[w].(job := Some(Job(built, blob, {}, false, false))))
  }

  function Dropped(s: Shared, w: nat): Shared
    requires w in s.writers
  {
    With(s, w, s.writers[w].(job := None))
  }

  function Uploaded(s: Shared, w: nat, d: Digest, fault: Fault): Shared
    requires Busy(s, w)
  {
    var me, job := s.writers[w], s.writers[w].job.value;
    match fault
    case LostRequest => Dropped(s, w)
    case LostReply => Dropped(s.(chunks := s.chunks + {d}), w)
    case Fine =>
      var index := if me.index.Some? then Some(me.index.value + {d}) else None;
      With(s.(chunks := s.chunks + {d}), w,
           me.(index := index, job := Some(job.(confirmed := job.confirmed + {d}))))
  }

  function Sealing(s: Shared, w: nat, fault: Fault): Shared
    requires Busy(s, w)
  {
    var job := s.writers[w].job.value;
    if fault == LostRequest || job.built.generation in s.manifests then Dropped(s, w)
    else
      var s' := s.(manifests := s.manifests[job.built.generation := job.blob]);
      if fault == LostReply then Dropped(s', w) else With(s', w, s.writers[w].(job := Some(job.(sealed := true))))
  }

  /** The commit object is create-only; on success the build becomes the baseline. */
  function Committing(s: Shared, w: nat, fault: Fault): Shared
    requires Busy(s, w)
  {
    var job := s.writers[w].job.value;
    if fault == LostRequest || job.built.generation in s.commits then Dropped(s, w)
    else
      var s' := s.(commits := s.commits[job.built.generation := job.blob.digest]);
      if fault == LostReply then Dropped(s', w)
      else With(s', w, s.writers[w].(baseline := job.built.stamps, job := None))
  }

  /** Everything the build must upload is known to be there. */
  predicate Confirmed(s: Shared, w: nat)
  {
    Busy(s, w) && s.writers[w].job.value.built.chunks.Keys <= s.writers[w].job.value.confirmed
  }

  /** One step; a step that is not enabled changes nothing. */
  function Next(setup: Setup, s: Shared, step: Step): Shared
    requires setup.size > 0
  {
    match step
    case Replace(w) => With(s, w, Writer(None, map[], None))
    case ListChunks(w) => if w in s.writers then With(s, w, s.writers[w].(index := Some(s.chunks))) else s
    case Begin(w, g, frozen, now) =>
      if w in s.writers && g > 0 && frozen.Listed() then Begun(setup, s, w, g, frozen, now) else s
    case Confirm(w, d) =>
      if Busy(s, w) && d in (if s.writers[w].index.Some? then s.writers[w].index.value else s.chunks) then
        var job := s.writers[w].job.value;
        With(s, w, s.writers[w].(job := Some(job.(confirmed := job.confirmed + {d}))))
      else s
    case Upload(w, d, fault) =>
      if Busy(s, w) && d in s.writers[w].job.value.built.chunks then Uploaded(s, w, d, fault) else s
    case PutManifest(w, fault) => if Confirmed(s, w) then Sealing(s, w, fault) else s
    case CheckCommit(w) =>
      if Busy(s, w) && s.writers[w].job.value.sealed then
        var job := s.writers[w].job.value;
        if Committable(job.built.generation, job.blob.digest, s.manifests, s.commits)
        then With(s, w, s.writers[w].(job := Some(job.(checked := true))))
        else Dropped(s, w)
      else s
    case PutCommit(w, fault) =>
      if Busy(s, w) && s.writers[w].job.value.checked then Committing(s, w, fault) else s
    case Abandon(w) => if w in s.writers then Dropped(s, w) else s
  }

  function Run(setup: Setup, s: Shared, steps: seq<Step>): Shared
    requires setup.size > 0
    decreases |steps|
  {
    if steps == [] then s else Run(setup, Next(setup, s, steps[0]), steps[1..])
  }

  // ------------------------------------------------------------- invariant

  /** All this build names, now and as the next baseline, is among these chunks. */
  predicate BuiltOn(built: Built, chunks: set<Digest>)
  {
    RefersOnlyTo(built.entries, chunks) && CacheDurable(built.stamps, chunks)
  }

  predicate JobOk(s: Shared, job: Job)
  {
    && job.confirmed <= s.chunks && job.blob.entries == job.built.entries
    && BuiltOn(job.built, job.built.chunks.Keys + s.chunks)
    && (job.sealed ==>
          && BuiltOn(job.built, s.chunks)
          && job.built.generation in s.manifests && s.manifests[job.built.generation] == job.blob)
    && (job.checked ==> job.sealed)
  }

  predicate WriterOk(s: Shared, w: Writer)
  {
    && (w.index.Some? ==> w.index.value <= s.chunks) && CacheDurable(w.baseline, s.chunks)
    && (w.job.Some? ==> JobOk(s, w.job.value))
  }

  ghost predicate Sound(s: Shared)
  {
    && (forall w | w in s.writers :: WriterOk(s, s.writers[w]))
    && (forall g | g in s.manifests :: RefersOnlyTo(s.manifests[g].entries, s.chunks))
    && (forall g | g in s.commits :: g in s.manifests && s.manifests[g].digest == s.commits[g])
  }

  lemma BuiltOnMore(built: Built, chunks: set<Digest>, more: set<Digest>)
    requires BuiltOn(built, chunks) && chunks <= more
    ensures BuiltOn(built, more)
  {
  }

  /** What a writer holds on to stays true as the store grows. */
  lemma WriterGrows(s: Shared, s': Shared, w: Writer)
    requires s.chunks <= s'.chunks && Grows(s.manifests, s'.manifests) && WriterOk(s, w)
    ensures WriterOk(s', w)
  {
    if w.job.Some? {
      var built := w.job.value.built;
      BuiltOnMore(built, built.chunks.Keys + s.chunks, built.chunks.Keys + s'.chunks);
      if w.job.value.sealed { BuiltOnMore(built, s.chunks, s'.chunks); }
    }
  }

  lemma SoundWith(s: Shared, s': Shared, w: nat, me: Writer)
    requires Sound(s) && s.chunks <= s'.chunks && Grows(s.manifests, s'.manifests) && s'.writers == s.writers[w := me]
    requires WriterOk(s', me)
    requires forall g | g in s'.manifests && g !in s.manifests :: RefersOnlyTo(s'.manifests[g].entries, s'.chunks)
    requires forall g | g in s'.commits && g !in s.commits ::
              g in s'.manifests && s'.manifests[g].digest == s'.commits[g]
    requires forall g | g in s'.commits && g in s.commits :: s'.commits[g] == s.commits[g]
    ensures Sound(s')
  {
    forall x | x in s'.writers && x != w
      ensures WriterOk(s', s'.writers[x])
    {
      WriterGrows(s, s', s.writers[x]);
    }
  }

  /** A build from a durable baseline names only its own upload set and what is durable already. */
  lemma BeginSound(setup: Setup, s: Shared, w: nat, generation: nat, frozen: Snapshot, now: int)
    requires Sound(s) && setup.size > 0 && w in s.writers && frozen.Listed()
    ensures Sound(Begun(setup, s, w, generation, frozen, now))
  {
    var s' := Begun(setup, s, w, generation, frozen, now);
    var baseline, built := s.writers[w].baseline, s'.writers[w].job.value.built;
    assert WriterOk(s, s.writers[w]);
    OutcomeCovered(setup.sha, setup.size, baseline, frozen, now, generation, built.chunks.Keys + s.chunks);
    SoundWith(s, s', w, s'.writers[w]);
  }

  lemma UploadSound(s: Shared, w: nat, d: Digest, fault: Fault)
    requires Sound(s) && Busy(s, w)
    ensures Sound(Uploaded(s, w, d, fault))
  {
    var s' := Uploaded(s, w, d, fault);
    WriterGrows(s, s', s.writers[w]);
    SoundWith(s, s', w, s'.writers[w]);
  }

  lemma SealSound(s: Shared, w: nat, fault: Fault)
    requires Sound(s) && Confirmed(s, w)
    ensures Sound(Sealing(s, w, fault))
  {
    var s' := Sealing(s, w, fault);
    var job := s.writers[w].job.value;
    assert WriterOk(s, s.writers[w]);
    assert job.built.chunks.Keys + s.chunks == s.chunks;
    WriterGrows(s, s', s.writers[w]);
    SoundWith(s, s', w, s'.writers[w]);
  }

  lemma CommitSound(s: Shared, w: nat, fault: Fault)
    requires Sound(s) && Busy(s, w) && s.writers[w].job.value.checked
    ensures Sound(Committing(s, w, fault))
  {
    var s' := Committing(s, w, fault);
    assert WriterOk(s, s.writers[w]);
    SoundWith(s, s', w, s'.writers[w]);
  }

  /** Steps that change one writer and nothing shared. */
  lemma AloneSound(setup: Setup, s: Shared, step: Step)
    requires setup.size > 0 && Sound(s)
    requires !step.Begin? && !step.Upload? && !step.PutManifest? && !step.PutCommit?
    ensures Sound(Next(setup, s, step))
  {
    var s' := Next(setup, s, step);
    if s' != s {
      assert s'.writers == s.writers[step.w := s'.writers[step.w]];
      if step.w in s.writers { assert WriterOk(s, s.writers[step.w]); }
      SoundWith(s, s', step.w, s'.writers[step.w]);
    }
  }

  lemma SoundNext(setup: Setup, s: Shared, step: Step)
    requires setup.size > 0 && Sound(s)
    ensures Sound(Next(setup, s, step))
  {
    match step
    case Begin(w, g, frozen, now) =>
      if w in s.writers && g > 0 && frozen.Listed() { BeginSound(setup, s, w, g, frozen, now); }
    case Upload(w, d, fault) => if Busy(s, w) { UploadSound(s, w, d, fault); }
    case PutManifest(w, fault) => if Confirmed(s, w) { SealSound(s, w, fault); }
    case PutCommit(w, fault) => if Busy(s, w) && s.writers[w].job.value.checked { CommitSound(s, w, fault); }
    case _ => AloneSound(setup, s, step);
  }

  lemma OnceWritten(setup: Setup, s: Shared, step: Step)
    requires setup.size > 0
    ensures Grows(s.manifests, Next(setup, s, step).manifests) && Grows(s.commits, Next(setup, s, step).commits)
  {
  }

  /**
   However the steps of however many writers interleave, and whatever is lost, every committed
   generation is complete, and no manifest and no commit is ever replaced.
   */
  lemma {:induction false} WritersStayComplete(setup: Setup, s: Shared, steps: seq<Step>)
    requires setup.size > 0 && Sound(s)
    ensures var e := Run(setup, s, steps);
            && Sound(e) && Complete(e.chunks, e.manifests, e.commits)
            && Grows(s.manifests, e.manifests) && Grows(s.commits, e.commits)
    decreases |steps|
  {
    if steps != [] {
      SoundNext(setup, s, steps[0]);
      OnceWritten(setup, s, steps[0]);
      WritersStayComplete(setup, Next(setup, s, steps[0]), steps[1..]);
    }
  }

  /** In particular from a store nobody has written to yet. */
  lemma WritersFromScratch(setup: Setup, steps: seq<Step>)
    requires setup.size > 0
    ensures var s := Run(setup, Shared({}, map[], map[], map[]), steps); Complete(s.chunks, s.manifests, s.commits)
  {
    WritersStayComplete(setup, Shared({}, map[], map[], map[]), steps);
  }

  // ------------------------------------------------------------- and they do commit

  lemma RunOn(setup: Setup, s: Shared, step: Step, rest: seq<Step>)
    requires setup.size > 0
    ensures Run(setup, s, [step] + rest) == Run(setup, Next(setup, s, step), rest)
  {
    assert ([step] + rest)[1..] == rest;
  }

  lemma {:induction false} RunBoth(setup: Setup, s: Shared, a: seq<Step>, b: seq<Step>)
    requires setup.size > 0
    ensures Run(setup, s, a + b) == Run(setup, Run(setup, s, a), b)
    decreases |a|
  {
    if a == [] {
      assert a + b == b;
    } else {
      assert a + b == [a[0]] + (a[1..] + b);
      RunOn(setup, s, a[0], a[1..] + b);
      RunBoth(setup, Next(setup, s, a[0]), a[1..], b);
    }
  }

  /** A checkpoint of this build is under way and these chunks are confirmed. */
  predicate Uploading(s: Shared, w: nat, job: Job, confirmed: set<Digest>)
  {
    Busy(s, w) && s.writers[w].job.value == job.(confirmed := confirmed) && !job.sealed && !job.checked
  }

  /** Uploads that arrive touch neither manifests nor commits. */
  lemma {:induction false} UploadsAll(setup: Setup, s: Shared, w: nat, job: Job, confirmed: set<Digest>,
                                      todo: set<Digest>) returns (steps: seq<Step>)
    requires setup.size > 0 && Uploading(s, w, job, confirmed) && todo <= job.built.chunks.Keys
    ensures forall i | 0 <= i < |steps| :: steps[i].w == w
    ensures var e := Run(setup, s, steps);
            Uploading(e, w, job, confirmed + todo) && e.manifests == s.manifests && e.commits == s.commits
    decreases todo
  {
    if todo == {} {
      steps := [];
      assert confirmed + todo == confirmed;
    } else {
      var d :| d in todo;
      var s' := Next(setup, s, Upload(w, d, Fine));
      var rest := UploadsAll(setup, s', w, job, confirmed + {d}, todo - {d});
      assert confirmed + {d} + (todo - {d}) == confirmed + todo;
      steps := [Upload(w, d, Fine)] + rest;
      RunOn(setup, s, Upload(w, d, Fine), rest);
    }
  }

  /** Sealing, checking and committing, when all chunks are there and the number is free and above every commit. */
  lemma CommitsNow(setup: Setup, s: Shared, w: nat, job: Job, confirmed: set<Digest>)
    requires setup.size > 0 && Uploading(s, w, job, confirmed) && job.built.chunks.Keys <= confirmed
    requires job.built.generation !in s.manifests && forall g | g in s.commits :: g < job.built.generation
    ensures var e := Next(setup, Next(setup, Next(setup, s, PutManifest(w, Fine)), CheckCommit(w)), PutCommit(w, Fine));
            && e.manifests == s.manifests[job.built.generation := job.blob]
            && e.commits == s.commits[job.built.generation := job.blob.digest]
            && w in e.writers && e.writers[w].baseline == job.built.stamps && e.writers[w].job == None
  {
    var sealed := With(s.(manifests := s.manifests[job.built.generation := job.blob]), w,
                       s.writers[w].(job := Some(job.(confirmed := confirmed, sealed := true))));
    assert Next(setup, s, PutManifest(w, Fine)) == sealed;
    var checked := With(sealed, w,
                        sealed.writers[w].(job := Some(job.(confirmed := confirmed, sealed := true, checked := true))));
    assert Next(setup, sealed, CheckCommit(w)) == checked;
  }

  /**
   An undisturbed writer commits: whatever the others have left, from any state there is a run of its own
   steps after which its build of the frozen workspace is committed and is its baseline.
   */
  lemma LoneWriterCommits(setup: Setup, s: Shared, w: nat, generation: nat, frozen: Snapshot, now: int)
      returns (steps: seq<Step>)
    requires setup.size > 0 && w in s.writers && frozen.Listed() && generation > 0
    requires generation !in s.manifests && forall g | g in s.commits :: g < generation
    ensures forall i | 0 <= i < |steps| :: steps[i].w == w
    ensures var built := Outcome(setup.sha, setup.size, s.writers[w].baseline, frozen, now, generation);
            var digest := setup.seal(generation, built.entries);
            var e := Run(setup, s, steps);
            && e.manifests == s.manifests[generation := Sealed(digest, built.entries)]
            && e.commits == s.commits[generation := digest]
            && w in e.writers && e.writers[w].baseline == built.stamps
  {
    var begun := Begun(setup, s, w, generation, frozen, now);
    var job := begun.writers[w].job.value;
    assert Next(setup, s, Begin(w, generation, frozen, now)) == begun;
    var uploads := OwnUploads(setup, begun, w, job);
    var uploaded := Run(setup, begun, uploads);
    CommitsNow(setup, uploaded, w, job, job.built.chunks.Keys);
    var last := [PutManifest(w, Fine)] + ([CheckCommit(w)] + ([PutCommit(w, Fine)] + []));
    RunThree(setup, uploaded, PutManifest(w, Fine), CheckCommit(w), PutCommit(w, Fine));
    steps := [Begin(w, generation, frozen, now)] + (uploads + last);
    RunOn(setup, s, Begin(w, generation, frozen, now), uploads + last);
    RunBoth(setup, begun, uploads, last);
  }

  lemma RunThree(setup: Setup, s: Shared, a: Step, b: Step, c: Step)
    requires setup.size > 0
    ensures Run(setup, s, [a] + ([b] + ([c] + []))) == Next(setup, Next(setup, Next(setup, s, a), b), c)
  {
    RunOn(setup, s, a, [b] + ([c] + []));
    RunOn(setup, Next(setup, s, a), b, [c] + []);
    RunOn(setup, Next(setup, Next(setup, s, a), b), c, []);
  }

  lemma OwnUploads(setup: Setup, s: Shared, w: nat, job: Job) returns (steps: seq<Step>)
    requires setup.size > 0 && Uploading(s, w, job, {})
    ensures forall i | 0 <= i < |steps| :: steps[i].w == w
    ensures var e := Run(setup, s, steps);
            && Uploading(e, w, job, job.built.chunks.Keys) && e.manifests == s.manifests && e.commits == s.commits
  {
    steps := UploadsAll(setup, s, w, job, {}, job.built.chunks.Keys);
    assert {} + job.built.chunks.Keys == job.built.chunks.Keys;
  }
}
