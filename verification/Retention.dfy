/**
 `RetentionManager`: mark what the newest generations do not need, sweep what has
 carried its mark for the grace period, and never touch what they do need.
 */
module Retention {
  import opened Base
  import opened Chunking
  import opened Manifest
  import opened DurableStore

  /** Something the collector may delete: a generation's two objects, or a chunk. */
  datatype Garbage = Generation(number: nat) | Chunk(digest: Digest)

  function Newer(commits: set<nat>, g: nat): set<nat> { set h | h in commits && h > g }

  /** The newest `retain` committed generations. */
  function Retained(commits: set<nat>, retain: nat): set<nat>
  {
    set g | g in commits && |Newer(commits, g)| < retain
  }

  /** Every retained generation has its manifest, with the committed digest, and every chunk that names. */
  ghost predicate RetainedComplete(retain: nat, chunks: set<Digest>, manifests: map<nat, Sealed>,
                                   commits: map<nat, Digest>)
  {
    forall g | g in Retained(commits.Keys, retain) ::
      && g in manifests && manifests[g].digest == commits[g]
      && RefersOnlyTo(manifests[g].entries, chunks)
  }

  ghost predicate Referenced(retain: nat, manifests: map<nat, Sealed>, commits: set<nat>, d: Digest)
  {
    exists g :: g in Retained(commits, retain) && g in manifests && d in Named(manifests[g].entries)
  }

  /** What no retained generation needs. */
  ghost predicate Unneeded(retain: nat, chunks: set<Digest>, manifests: map<nat, Sealed>, commits: set<nat>, x: Garbage)
  {
    match x
    case Generation(g) => g in commits && g !in Retained(commits, retain)
    case Chunk(d) => d in chunks && !Referenced(retain, manifests, commits, d)
  }

  lemma {:induction false} OldestOf(commits: set<nat>) returns (m: nat)
    requires commits != {}
    ensures m in commits && forall g | g in commits :: m <= g
    decreases |commits|
  {
    var x :| x in commits;
    var rest := commits - {x};
    if rest == {} {
      assert commits == {x};
      m := x;
    } else {
      var other := OldestOf(rest);
      assert forall g | g in commits :: g == x || g in rest;
      m := if other < x then other else x;
    }
  }

  lemma OldestLast(commits: set<nat>, m: nat, retain: nat)
    requires m in commits && forall g | g in commits :: m <= g
    ensures Retained(commits, retain) == Retained(commits - {m}, retain) + if |commits| <= retain then {m} else {}
  {
    var rest := commits - {m};
    assert Newer(commits, m) == rest;
    forall g | g in rest
      ensures Newer(commits, g) == Newer(rest, g)
    {
    }
  }

  /** There are `retain` retained generations, or all there are. */
  lemma {:induction false} RetainedCount(commits: set<nat>, retain: nat)
    ensures |Retained(commits, retain)| == if |commits| < retain then |commits| else retain
    decreases |commits|
  {
    if commits == {} {
      assert Retained(commits, retain) == {};
    } else {
      var m := OldestOf(commits);
      var rest := commits - {m};
      RetainedCount(rest, retain);
      OldestLast(commits, m, retain);
    }
  }

  /** Deleting generations that are not retained leaves the retained ones as they are. */
  lemma DeletingOldKeepsRetained(commits: set<nat>, gone: set<nat>, retain: nat)
    requires gone !! Retained(commits, retain)
    ensures Retained(commits - gone, retain) == Retained(commits, retain)
  {
    var kept := Retained(commits, retain);
    forall g | g in commits - gone
      ensures g in kept <==> |Newer(commits - gone, g)| < retain
    {
      if g in kept {
        SubsetIsSmaller(Newer(commits - gone, g), Newer(commits, g));
      } else {
        RetainedCount(commits, retain);
        SubsetIsSmaller(Newer(commits, g), commits);
        forall h | h in kept
          ensures h in Newer(commits - gone, g)
        {
          if h <= g {
            assert Newer(commits, g) <= Newer(commits, h);
            SubsetIsSmaller(Newer(commits, g), Newer(commits, h));
            assert false;
          }
        }
        SubsetIsSmaller(kept, Newer(commits - gone, g));
      }
    }
  }

  /** A newer commit retains itself and otherwise only what was retained before. */
  lemma CommitKeepsRetained(commits: set<nat>, g: nat, retain: nat)
    requires forall h | h in commits :: h < g
    ensures Retained(commits + {g}, retain) <= Retained(commits, retain) + {g}
  {
    forall h | h in Retained(commits + {g}, retain) && h != g
      ensures h in Retained(commits, retain)
    {
      SubsetIsSmaller(Newer(commits, h), Newer(commits + {g}, h));
    }
  }

  /** A newer commit joins the retained ones and pushes out the oldest of a full set. */
  lemma RetainedOnTop(commits: set<nat>, g: nat, retain: nat)
    requires retain > 0 && forall h | h in commits :: h < g
    ensures Retained(commits + {g}, retain) == Retained(commits, retain - 1) + {g}
  {
    assert Newer(commits + {g}, g) == {};
    forall h | h in commits
      ensures |Newer(commits + {g}, h)| == |Newer(commits, h)| + 1
    {
      assert Newer(commits + {g}, h) == Newer(commits, h) + {g};
    }
  }

  /** Which of the retained generations are among the newest `fewer` depends on the retained ones only. */
  lemma RetainedWithin(commits: set<nat>, retain: nat, fewer: nat)
    requires fewer <= retain
    ensures Retained(commits, fewer) == Retained(Retained(commits, retain), fewer)
  {
    var kept := Retained(commits, retain);
    forall g | g in kept
      ensures Newer(kept, g) == Newer(commits, g)
    {
      forall h | h in Newer(commits, g)
        ensures h in kept
      {
        assert Newer(commits, h) <= Newer(commits, g);
        SubsetIsSmaller(Newer(commits, h), Newer(commits, g));
      }
    }
  }

  // ------------------------------------------- what is still there of all there ever was

  /**
   The newest generations ever committed are the newest ones there, with the manifest and
   the digest they were committed with.
   */
  ghost predicate NewestSurvive(retain: nat, manifests: map<nat, Sealed>, commits: map<nat, Digest>,
                                ever: map<nat, Sealed>)
  {
    && Retained(commits.Keys, retain) == Retained(ever.Keys, retain)
    && (forall g | g in Retained(ever.Keys, retain) ::
          g in manifests && manifests[g] == ever[g] && g in commits && commits[g] == ever[g].digest)
  }

  /** A number above every commit is above every generation ever committed. */
  lemma AboveAllIsAboveEver(retain: nat, manifests: map<nat, Sealed>, commits: map<nat, Digest>,
                            ever: map<nat, Sealed>, g: nat)
    requires retain > 0 && NewestSurvive(retain, manifests, commits, ever) && forall h | h in commits :: h < g
    ensures forall h | h in ever :: h < g
  {
    if ever.Keys != {} {
      var top := MaxOf(ever.Keys);
      assert Newer(ever.Keys, top) == {};
      assert top in Retained(ever.Keys, retain);
    }
  }

  lemma CommitSurvives(retain: nat, manifests: map<nat, Sealed>, commits: map<nat, Digest>, ever: map<nat, Sealed>,
                       g: nat)
    requires retain > 0 && NewestSurvive(retain, manifests, commits, ever)
    requires g in manifests && forall h | h in commits :: h < g
    ensures NewestSurvive(retain, manifests, commits[g := manifests[g].digest], ever[g := manifests[g]])
    ensures g !in ever
  {
    AboveAllIsAboveEver(retain, manifests, commits, ever, g);
    RetainedOnTop(commits.Keys, g, retain);
    RetainedOnTop(ever.Keys, g, retain);
    RetainedWithin(commits.Keys, retain, retain - 1);
    RetainedWithin(ever.Keys, retain, retain - 1);
    assert commits[g := manifests[g].digest].Keys == commits.Keys + {g};
    assert ever[g := manifests[g]].Keys == ever.Keys + {g};
    FewerAreRetained(ever.Keys, retain);
  }

  lemma FewerAreRetained(commits: set<nat>, retain: nat)
    requires retain > 0
    ensures Retained(commits, retain - 1) <= Retained(commits, retain)
  {
  }

  lemma SweepSurvives(retain: nat, manifests: map<nat, Sealed>, commits: map<nat, Digest>, ever: map<nat, Sealed>,
                      gone: set<nat>)
    requires NewestSurvive(retain, manifests, commits, ever)
    requires forall g | g in gone :: g !in Retained(commits.Keys, retain)
    ensures NewestSurvive(retain, manifests - gone, commits - gone, ever)
  {
    DeletingOldKeepsRetained(commits.Keys, gone, retain);
    assert (commits - gone).Keys == commits.Keys - gone;
  }

  // -------------------------------------------------------------- the collector

  /** One run of the marking phase: when it was, and what it marked. */
  datatype Marking = Marking(at: int, marked: set<Garbage>)

  /** Marked at time `since` and by every marking after that. */
  ghost predicate Carried(history: seq<Marking>, x: Garbage, since: int)
  {
    exists i :: 0 <= i < |history| && history[i].at == since && forall j | i <= j < |history| :: x in history[j].marked
  }

  lemma CarriedOn(history: seq<Marking>, m: Marking, x: Garbage, since: int)
    requires x in m.marked && (Carried(history, x, since) || since == m.at)
    ensures Carried(history + [m], x, since)
  {
    var after := history + [m];
    if Carried(history, x, since) {
      var i :| 0 <= i < |history| && history[i].at == since && forall j | i <= j < |history| :: x in history[j].marked;
      assert after[i].at == since && forall j | i <= j < |after| :: x in after[j].marked;
    } else {
      assert after[|history|].at == since;
    }
  }

  /** One deletion: what, when, and how much of the history of markings came before it. */
  datatype Deletion = Deletion(what: Garbage, at: int, upTo: nat)

  function Deletions(swept: set<Garbage>, now: int, upTo: nat): set<Deletion>
  {
    set x | x in swept :: Deletion(x, now, upTo)
  }

  /** Marked no later than `until`, and by every marking since. */
  ghost predicate Overdue(history: seq<Marking>, x: Garbage, until: int)
  {
    exists since: int :: since <= until && Carried(history, x, since)
  }

  /** Everything deleted had carried its mark for the grace period. */
  ghost predicate AllOverdue(deletions: set<Deletion>, history: seq<Marking>, grace: int)
  {
    forall x | x in deletions :: x.upTo <= |history| && Overdue(history[..x.upTo], x.what, x.at - grace)
  }

  ghost predicate Deleted(deletions: set<Deletion>, x: Garbage)
  {
    exists d :: d in deletions && d.what == x
  }

  /** Nothing is gone that was not deleted. */
  ghost predicate Accounted(deletions: set<Deletion>, stored: set<Digest>, chunks: set<Digest>, ever: set<nat>,
                            commits: set<nat>)
  {
    && (forall d | d in stored && d !in chunks :: Deleted(deletions, Chunk(d)))
    && (forall g | g in ever && g !in commits :: Deleted(deletions, Generation(g)))
  }

  lemma OverdueOnwards(deletions: set<Deletion>, history: seq<Marking>, m: Marking, grace: int)
    requires AllOverdue(deletions, history, grace)
    ensures AllOverdue(deletions, history + [m], grace)
  {
    forall x | x in deletions
      ensures Overdue((history + [m])[..x.upTo], x.what, x.at - grace)
    {
      assert (history + [m])[..x.upTo] == history[..x.upTo];
    }
  }

  /** Sweeping what is not needed keeps the retained generations and all they need. */
  lemma SweepKeepsRetained(retain: nat, chunks: set<Digest>, manifests: map<nat, Sealed>, commits: map<nat, Digest>,
                           gone: set<nat>, dropped: set<Digest>)
    requires RetainedComplete(retain, chunks, manifests, commits)
    requires forall g | g in gone :: g !in Retained(commits.Keys, retain)
    requires forall d | d in dropped :: !Referenced(retain, manifests, commits.Keys, d)
    ensures RetainedComplete(retain, chunks - dropped, manifests - gone, commits - gone)
    ensures Retained((commits - gone).Keys, retain) == Retained(commits.Keys, retain)
  {
    DeletingOldKeepsRetained(commits.Keys, gone, retain);
    assert (commits - gone).Keys == commits.Keys - gone;
    forall g, e, d | g in Retained(commits.Keys, retain) && e in manifests[g].entries && d in e.chunks
      ensures d in chunks - dropped
    {
      assert d in Named(manifests[g].entries);
      assert Referenced(retain, manifests, commits.Keys, d);
    }
  }

  /** The new marks: a candidate that was marked already keeps its date. */
  function Redated(marks: map<Garbage, int>, candidates: set<Garbage>, now: int): map<Garbage, int>
  {
    map x | x in candidates :: if x in marks then marks[x] else now
  }

  ghost predicate Dated(marks: map<Garbage, int>, history: seq<Marking>)
  {
    forall x | x in marks :: Carried(history, x, marks[x])
  }

  lemma RedatedIsCarried(marks: map<Garbage, int>, history: seq<Marking>, candidates: set<Garbage>, now: int)
    requires Dated(marks, history)
    ensures Dated(Redated(marks, candidates, now), history + [Marking(now, candidates)])
    ensures Redated(marks, candidates, now).Keys == candidates
  {
    forall x | x in candidates
      ensures Carried(history + [Marking(now, candidates)], x, if x in marks then marks[x] else now)
    {
      CarriedOn(history, Marking(now, candidates), x, if x in marks then marks[x] else now);
    }
  }

  function Numbers(swept: set<Garbage>): set<nat> { set x | x in swept && x.Generation? :: x.number }

  function Swept(swept: set<Garbage>): set<Digest> { set x | x in swept && x.Chunk? :: x.digest }

  /** The marks and the three kinds of objects. */
  datatype Holdings = Holdings(marks: map<Garbage, int>, chunks: map<Digest, Bytes>,
                               manifests: map<nat, Sealed>, commits: map<nat, Digest>)

  lemma MinusMore<K, V>(m: map<K, V>, gone: set<K>, more: set<K>)
    ensures m - gone - more == m - (gone + more)
  {
  }

  lemma OneMore(done: set<Garbage>, x: Garbage)
    ensures Numbers(done + {x}) == Numbers(done) + if x.Generation? then {x.number} else {}
    ensures Swept(done + {x}) == Swept(done) + if x.Chunk? then {x.digest} else {}
  {
  }

  lemma SweepIsPatient(deletions: set<Deletion>, history: seq<Marking>, marks: map<Garbage, int>, grace: int, now: int,
                       swept: set<Garbage>)
    requires AllOverdue(deletions, history, grace) && Dated(marks, history)
    requires forall x | x in swept :: x in marks && now - marks[x] >= grace
    ensures AllOverdue(deletions + Deletions(swept, now, |history|), history, grace)
  {
    assert history[..|history|] == history;
    forall x | x in swept
      ensures Overdue(history, x, now - grace)
    {
      assert Carried(history, x, marks[x]);
    }
  }

  lemma SweepIsAccounted(deletions: set<Deletion>, stored: set<Digest>, chunks: set<Digest>, ever: set<nat>,
                         commits: set<nat>,
                         swept: set<Garbage>, now: int, upTo: nat)
    requires Accounted(deletions, stored, chunks, ever, commits)
    ensures Accounted(deletions + Deletions(swept, now, upTo), stored,
                      chunks - Swept(swept), ever, commits - Numbers(swept))
  {
    var more := deletions + Deletions(swept, now, upTo);
    forall x | Deleted(deletions, x) || x in swept
      ensures Deleted(more, x)
    {
      if x in swept {
        assert Deletion(x, now, upTo) in more;
      } else {
        var d :| d in deletions && d.what == x;
        assert d in more;
      }
    }
  }

  function AllUnneeded(retained: set<nat>, referenced: set<Digest>, chunks: set<Digest>,
                       commits: set<nat>): set<Garbage>
  {
    (set g | g in commits && g !in retained :: Generation(g)) + (set d | d in chunks && d !in referenced :: Chunk(d))
  }

  lemma UnneededAre(retain: nat, chunks: set<Digest>, manifests: map<nat, Sealed>, commits: set<nat>,
                    referenced: set<Digest>)
    requires forall d :: d in referenced <==> Referenced(retain, manifests, commits, d)
    ensures forall x :: x in AllUnneeded(Retained(commits, retain), referenced, chunks, commits)
                        <==> Unneeded(retain, chunks, manifests, commits, x)
  {
  }

  lemma KeysMinus<K, V>(m: map<K, V>, gone: set<K>)
    ensures (m - gone).Keys == m.Keys - gone
  {
  }

  class RetentionManager {
    const store: Store
    const retain: nat
    const grace: int
    var marks: map<Garbage, int>
    ghost var history: seq<Marking>
    ghost var deletions: set<Deletion>

    /** The newest generations ever committed are there, whole. */
    ghost predicate Safe()
      reads this, store
    {
      && RetainedComplete(retain, store.chunks.Keys, store.manifests, store.commits)
      && NewestSurvive(retain, store.manifests, store.commits, store.ever)
    }

    /** Whatever is gone was deleted after carrying its mark for the grace period. */
    ghost predicate Patient()
      reads this, store
    {
      && Accounted(deletions, store.stored, store.chunks.Keys, store.ever.Keys, store.commits.Keys)
      && AllOverdue(deletions, history, grace)
    }

    ghost predicate Valid()
      reads this, store
    {
      retain >= 2 && grace > 0 && store.Valid() && !store.indexed && Safe() && Patient() && Dated(marks, history)
    }

    constructor (store: Store, retain: nat, grace: int)
      requires retain >= 2 && grace > 0 && store.Valid() && !store.indexed
      requires RetainedComplete(retain, store.chunks.Keys, store.manifests, store.commits)
      requires store.stored == store.chunks.Keys && store.ever.Keys == store.commits.Keys
      requires forall g | g in store.commits :: g in store.manifests && store.manifests[g] == store.ever[g]
      ensures Valid() && this.store == store && this.retain == retain && this.grace == grace
      ensures marks == map[] && history == [] && deletions == {}
    {
      this.store, this.retain, this.grace := store, retain, grace;
      marks, history, deletions := map[], [], {};
    }

    /** The chunks the retained generations name. */
    method CollectReferenced() returns (referenced: set<Digest>)
      requires RetainedComplete(retain, store.chunks.Keys, store.manifests, store.commits)
      ensures forall d :: d in referenced <==> Referenced(retain, store.manifests, store.commits.Keys, d)
    {
      var retained := Retained(store.commits.Keys, retain);
      var todo := retained;
      referenced := {};
      while todo != {}
        invariant todo <= retained
        invariant forall d :: d in referenced <==>
                    exists g :: g in retained - todo && d in Named(store.manifests[g].entries)
      {
        var g :| g in todo;
        todo := todo - {g};
        referenced := referenced + Named(store.manifests[g].entries);
      }
    }

    method Candidates() returns (candidates: set<Garbage>)
      requires RetainedComplete(retain, store.chunks.Keys, store.manifests, store.commits)
      ensures forall x ::
                x in candidates <==> Unneeded(retain, store.chunks.Keys, store.manifests, store.commits.Keys, x)
    {
      var referenced := CollectReferenced();
      candidates := AllUnneeded(Retained(store.commits.Keys, retain), referenced, store.chunks.Keys,
                                store.commits.Keys);
      UnneededAre(retain, store.chunks.Keys, store.manifests, store.commits.Keys, referenced);
    }

    /** Mark what is not needed now; what was marked before and still is not needed keeps its date. */
    method Mark(now: int)
      requires Valid()
      modifies this`marks, this`history
      ensures Valid() && history == old(history) + [Marking(now, marks.Keys)]
      ensures forall x :: x in marks <==> Unneeded(retain, store.chunks.Keys, store.manifests, store.commits.Keys, x)
      ensures forall x | x in marks :: marks[x] == if x in old(marks) then old(marks)[x] else now
    {
      var candidates := Candidates();
      RedatedIsCarried(marks, history, candidates, now);
      OverdueOnwards(deletions, history, Marking(now, candidates), grace);
      history := history + [Marking(now, candidates)];
      marks := Redated(marks, candidates, now);
    }

    /** Delete one object and its mark. */
    method Delete(x: Garbage)
      requires !store.indexed && store.Valid()
      modifies this`marks, store`chunks, store`manifests, store`commits
      ensures store.Valid() && marks == old(marks) - {x}
      ensures x.Generation? ==> && store.manifests == old(store.manifests) - {x.number}
                                && store.commits == old(store.commits) - {x.number} && store.chunks == old(store.chunks)
      ensures x.Chunk? ==> && store.chunks == old(store.chunks) - {x.digest}
                           && store.manifests == old(store.manifests) && store.commits == old(store.commits)
    {
      match x {
        case Generation(g) => store.RemoveGeneration(g);
        case Chunk(d) => store.RemoveChunk(d);
      }
      marks := marks - {x};
    }

    /** Delete these objects, whatever the order. */
    method DeleteAll(due: set<Garbage>)
      requires !store.indexed && store.Valid()
      modifies this`marks, store`chunks, store`manifests, store`commits
      ensures store.Valid() && marks == old(marks) - due
      ensures store.chunks == old(store.chunks) - Swept(due)
      ensures store.manifests == old(store.manifests) - Numbers(due)
      ensures store.commits == old(store.commits) - Numbers(due)
    {
      ghost var was := Holdings(marks, store.chunks, store.manifests, store.commits);
      var todo, done: set<Garbage> := due, {};
      while todo != {}
        invariant todo + done == due && store.Valid() && Left(was, done)
      {
        var x :| x in todo;
        DeleteNext(x, was, done);
        todo, done := todo - {x}, done + {x};
      }
    }

    /** What is left once these objects are gone. */
    ghost predicate Left(was: Holdings, gone: set<Garbage>)
      reads this, store
    {
      && marks == was.marks - gone && store.chunks == was.chunks - Swept(gone)
      && store.manifests == was.manifests - Numbers(gone) && store.commits == was.commits - Numbers(gone)
    }

    method DeleteNext(x: Garbage, ghost was: Holdings, ghost done: set<Garbage>)
      requires !store.indexed && store.Valid() && Left(was, done)
      modifies this`marks, store`chunks, store`manifests, store`commits
      ensures store.Valid() && Left(was, done + {x})
    {
      OneMore(done, x);
      MinusMore(was.marks, done, {x});
      match x {
        case Generation(g) =>
          MinusMore(was.manifests, Numbers(done), {g});
          MinusMore(was.commits, Numbers(done), {g});
        case Chunk(d) =>
          MinusMore(was.chunks, Swept(done), {d});
      }
      Delete(x);
    }

    /** Whether a sweep at `now` that marks at `marking` finds this overdue. */
    ghost predicate DueAt(x: Garbage, marking: int, now: int)
      reads this, store
    {
      && Unneeded(retain, store.chunks.Keys, store.manifests, store.commits.Keys, x)
      && now - (if x in marks then marks[x] else marking) >= grace
    }

    /** What is overdue is safe to delete, and its deletion is on the record. */
    lemma DeletionIsSafe(swept: set<Garbage>, now: int)
      requires Valid()
      requires forall x | x in swept :: && x in marks && now - marks[x] >= grace
                 && Unneeded(retain, store.chunks.Keys, store.manifests, store.commits.Keys, x)
      ensures RetainedComplete(retain, store.chunks.Keys - Swept(swept), store.manifests - Numbers(swept),
                               store.commits - Numbers(swept))
      ensures NewestSurvive(retain, store.manifests - Numbers(swept), store.commits - Numbers(swept), store.ever)
      ensures Retained((store.commits - Numbers(swept)).Keys, retain) == Retained(store.commits.Keys, retain)
      ensures AllOverdue(deletions + Deletions(swept, now, |history|), history, grace)
      ensures Accounted(deletions + Deletions(swept, now, |history|), store.stored,
                        store.chunks.Keys - Swept(swept), store.ever.Keys, store.commits.Keys - Numbers(swept))
    {
      SweepKeepsRetained(retain, store.chunks.Keys, store.manifests, store.commits, Numbers(swept), Swept(swept));
      SweepSurvives(retain, store.manifests, store.commits, store.ever, Numbers(swept));
      SweepIsPatient(deletions, history, marks, grace, now, swept);
      SweepIsAccounted(deletions, store.stored, store.chunks.Keys, store.ever.Keys, store.commits.Keys, swept, now,
                       |history|);
    }

    method DeleteOverdue(swept: set<Garbage>, now: int)
      requires Valid()
      requires forall x | x in swept :: && x in marks && now - marks[x] >= grace
                 && Unneeded(retain, store.chunks.Keys, store.manifests, store.commits.Keys, x)
      modifies this`marks, this`deletions, store`chunks, store`manifests, store`commits
      ensures Valid() && deletions == old(deletions) + Deletions(swept, now, |history|)
      ensures store.chunks == old(store.chunks) - Swept(swept)
      ensures store.manifests == old(store.manifests) - Numbers(swept)
      ensures store.commits == old(store.commits) - Numbers(swept)
      ensures Retained(store.commits.Keys, retain) == Retained(old(store.commits).Keys, retain)
    {
      DeletionIsSafe(swept, now);
      KeysMinus(store.chunks, Swept(swept));
      KeysMinus(store.commits, Numbers(swept));
      deletions := deletions + Deletions(swept, now, |history|);
      DeleteAll(swept);
    }

    /** Mark, then delete everything that has carried its mark for the grace period. */
    method Sweep(marking: int, now: int) returns (swept: set<Garbage>)
      requires Valid()
      modifies this, store`chunks, store`manifests, store`commits
      ensures Valid() && |history| == |old(history)| + 1 && old(history) <= history
      ensures deletions == old(deletions) + Deletions(swept, now, |history|)
      ensures forall x :: x in swept <==> old(DueAt(x, marking, now))
      ensures store.chunks == old(store.chunks) - Swept(swept)
      ensures store.manifests == old(store.manifests) - Numbers(swept)
      ensures store.commits == old(store.commits) - Numbers(swept)
      ensures Retained(store.commits.Keys, retain) == Retained(old(store.commits).Keys, retain)
    {
      Mark(marking);
      swept := set x | x in marks && now - marks[x] >= grace;
      DeleteOverdue(swept, now);
    }
  }

  /**
   And nothing is kept for longer: a marking, and a sweep a grace period later with nothing in between, leave
   exactly the retained generations and the chunks they name.
   */
  method MarkThenSweep(manager: RetentionManager, marking: int, now: int)
    requires manager.Valid() && now - marking >= manager.grace
    requires forall x | x in manager.marks :: manager.marks[x] <= marking
    modifies manager, manager.store`chunks, manager.store`manifests, manager.store`commits
    ensures manager.Valid()
    ensures manager.store.commits.Keys == Retained(old(manager.store.commits).Keys, manager.retain)
    ensures forall d :: d in manager.store.chunks <==>
                          && d in old(manager.store.chunks)
                          && old(Referenced(manager.retain, manager.store.manifests, manager.store.commits.Keys, d))
  {
    ghost var retain, chunks, manifests, commits :=
      manager.retain, manager.store.chunks.Keys, manager.store.manifests, manager.store.commits.Keys;
    manager.Mark(marking);
    assert forall x | Unneeded(retain, chunks, manifests, commits, x) :: manager.DueAt(x, now, now);
    var swept := manager.Sweep(now, now);
    AllSwept(retain, chunks, manifests, commits, swept);
  }

  lemma AllSwept(retain: nat, chunks: set<Digest>, manifests: map<nat, Sealed>, commits: set<nat>, swept: set<Garbage>)
    requires forall x :: x in swept <==> Unneeded(retain, chunks, manifests, commits, x)
    ensures commits - Numbers(swept) == Retained(commits, retain)
    ensures forall d :: d in chunks - Swept(swept) <==> d in chunks && Referenced(retain, manifests, commits, d)
  {
    forall g | g in commits
      ensures g in Numbers(swept) <==> g !in Retained(commits, retain)
    {
      assert Generation(g) in swept <==> g !in Retained(commits, retain);
    }
    forall d | d in chunks
      ensures d in Swept(swept) <==> !Referenced(retain, manifests, commits, d)
    {
      assert Chunk(d) in swept <==> !Referenced(retain, manifests, commits, d);
    }
  }

  // ------------------------------------------------------- checkpoints and sweeps

  /** Chunks that only come, and manifests that only come, keep the retained generations complete. */
  lemma GrowthKeepsRetained(retain: nat, commits: map<nat, Digest>,
                            chunks: set<Digest>, manifests: map<nat, Sealed>, chunks': set<Digest>,
                            manifests': map<nat, Sealed>)
    requires RetainedComplete(retain, chunks, manifests, commits) && chunks <= chunks' && Grows(manifests, manifests')
    ensures RetainedComplete(retain, chunks', manifests', commits)
  {
  }

  /** A commit on top keeps the retained generations complete exactly when all its own chunks are there. */
  lemma CommitOnTop(retain: nat, chunks: set<Digest>, manifests: map<nat, Sealed>, commits: map<nat, Digest>, g: nat)
    requires RetainedComplete(retain, chunks, manifests, commits) && retain > 0
    requires g in manifests && forall h | h in commits :: h < g
    ensures RetainedComplete(retain, chunks, manifests, commits[g := manifests[g].digest])
            <==> RefersOnlyTo(manifests[g].entries, chunks)
  {
    var commits' := commits[g := manifests[g].digest];
    assert commits'.Keys == commits.Keys + {g};
    CommitKeepsRetained(commits.Keys, g, retain);
    assert Newer(commits'.Keys, g) == {};
    assert g in Retained(commits'.Keys, retain);
  }

  /** A whole checkpoint by a writer that read every file and asks the store about every chunk. */
  method CheckpointWhole(manager: RetentionManager, chunks: map<Digest, Bytes>, entries: seq<Entry>, digest: Digest)
      returns (done: Option<nat>)
    requires manager.Valid() && RefersOnlyTo(entries, chunks.Keys)
    requires forall d | d in chunks :: manager.store.sha(chunks[d]) == d
    modifies manager.store
    ensures manager.Valid() && Extends(manager.store, old(manager.store.ever), digest, entries)
    ensures Grows(old(manager.store.commits), manager.store.commits)
    ensures Grows(old(manager.store.manifests), manager.store.manifests)
    ensures old(manager.store.chunks).Keys <= manager.store.chunks.Keys
    ensures done.Some? ==> manager.store.ever == old(manager.store.ever)[done.value := Sealed(digest, entries)]
    ensures done.Some? ==> forall g | g in old(manager.store.ever) :: g < done.value
    ensures old(manager.store.faults) == [] ==> manager.store.faults == [] && done.Some?
  {
    var store := manager.store;
    var generation := store.NextGeneration();
    if generation.Err? {
      return None;
    }
    AboveAllIsAboveEver(manager.retain, store.manifests, store.commits, store.ever, generation.value);
    var uploaded := UploadAll(manager, chunks);
    if !uploaded {
      return None;
    }
    var sealed := SealGeneration(manager, generation.value, Sealed(digest, entries));
    if !sealed {
      return None;
    }
    var committed := CommitSealed(manager, generation.value, digest, entries);
    ghost var before := old(store.ever);
    assert store.ever == before || Adds(before, store.ever, generation.value, Sealed(digest, entries));
    done := if committed then Some(generation.value) else None;
  }

  /** At most one generation joined all there ever were: this one, under a number above them all. */
  ghost predicate Extends(store: Store, before: map<nat, Sealed>, digest: Digest, entries: seq<Entry>)
    reads store
  {
    || store.ever == before
    || exists g: nat :: Adds(before, store.ever, g, Sealed(digest, entries))
  }

  predicate Adds(before: map<nat, Sealed>, after: map<nat, Sealed>, g: nat, blob: Sealed)
  {
    after == before[g := blob] && forall h | h in before :: h < g
  }

  lemma GrowthSurvives(retain: nat, manifests: map<nat, Sealed>, manifests': map<nat, Sealed>,
                       commits: map<nat, Digest>,
                       ever: map<nat, Sealed>)
    requires NewestSurvive(retain, manifests, commits, ever) && Grows(manifests, manifests')
    ensures NewestSurvive(retain, manifests', commits, ever)
  {
  }

  method SealGeneration(manager: RetentionManager, generation: nat, blob: Sealed) returns (ok: bool)
    requires manager.Valid() && generation > 0
    modifies manager.store`manifests, manager.store`faults
    ensures manager.Valid() && Grows(old(manager.store.manifests), manager.store.manifests)
    ensures ok ==> generation in manager.store.manifests && manager.store.manifests[generation] == blob
    ensures old(manager.store.faults) == [] && generation !in old(manager.store.manifests) ==>
              manager.store.faults == [] && ok
  {
    var store := manager.store;
    ghost var before := store.manifests;
    var sealed := store.UploadManifest(generation, blob);
    GrowthKeepsRetained(manager.retain, store.commits, store.chunks.Keys, before, store.chunks.Keys, store.manifests);
    GrowthSurvives(manager.retain, before, store.manifests, store.commits, store.ever);
    ok := sealed.Ok?;
  }

  method CommitSealed(manager: RetentionManager, generation: nat, digest: Digest,
                      entries: seq<Entry>) returns (ok: bool)
    requires manager.Valid() && generation > 0 && RefersOnlyTo(entries, manager.store.chunks.Keys)
    requires generation in manager.store.manifests && manager.store.manifests[generation] == Sealed(digest, entries)
    requires forall g | g in manager.store.commits :: g < generation
    modifies manager.store`commits, manager.store`faults, manager.store`ever
    ensures manager.Valid() && Grows(old(manager.store.commits), manager.store.commits)
    ensures || manager.store.ever == old(manager.store.ever)
            || manager.store.ever == old(manager.store.ever)[generation := Sealed(digest, entries)]
    ensures ok ==> manager.store.ever == old(manager.store.ever)[generation := Sealed(digest, entries)]
    ensures old(manager.store.faults) == [] ==> manager.store.faults == [] && ok
  {
    var store := manager.store;
    CommitOnTop(manager.retain, store.chunks.Keys, store.manifests, store.commits, generation);
    CommitSurvives(manager.retain, store.manifests, store.commits, store.ever, generation);
    var committed := store.CommitGeneration(generation, digest);
    ok := committed.Ok?;
  }

  method UploadAll(manager: RetentionManager, chunks: map<Digest, Bytes>) returns (ok: bool)
    requires manager.Valid() && forall d | d in chunks :: manager.store.sha(chunks[d]) == d
    modifies manager.store`chunks, manager.store`known, manager.store`faults, manager.store`stored
    ensures manager.Valid() && old(manager.store.chunks).Keys <= manager.store.chunks.Keys
    ensures ok ==> chunks.Keys <= manager.store.chunks.Keys
    ensures old(manager.store.faults) == [] ==> manager.store.faults == [] && ok
  {
    var store := manager.store;
    var todo := chunks.Keys;
    while todo != {}
      invariant manager.Valid() && todo <= chunks.Keys && chunks.Keys <= todo + store.chunks.Keys
      invariant old(store.chunks).Keys <= store.chunks.Keys && (old(store.faults) == [] ==> store.faults == [])
    {
      var d :| d in todo;
      todo := todo - {d};
      ghost var before := store.chunks.Keys;
      var sent := store.UploadChunk(d, chunks[d]);
      GrowthKeepsRetained(manager.retain, store.commits, before, store.manifests, store.chunks.Keys, store.manifests);
      if sent.Err? {
        return false;
      }
    }
    ok := true;
  }

  datatype Act =
    | Checkpoint(chunks: map<Digest, Bytes>, entries: seq<Entry>, digest: Digest)
    | MarkNow(at: int)
    | SweepNow(marking: int, at: int)

  /** A full read: the manifest names only chunks of its own upload set, each under its own digest. */
  predicate ReadsAll(sha: Bytes -> Digest, a: Act)
  {
    a.Checkpoint? ==> RefersOnlyTo(a.entries, a.chunks.Keys) && forall d | d in a.chunks :: sha(a.chunks[d]) == d
  }

  /** The outcome of an act: a checkpoint that reported a number is among all there ever were, as it was sealed. */
  predicate Recorded(a: Act, done: Option<nat>, ever: map<nat, Sealed>)
  {
    done.Some? ==> a.Checkpoint? && done.value in ever && ever[done.value] == Sealed(a.digest, a.entries)
  }

  method Perform(manager: RetentionManager, act: Act) returns (done: Option<nat>)
    requires manager.Valid() && ReadsAll(manager.store.sha, act)
    modifies manager, manager.store
    ensures manager.Valid() && old(manager.history) <= manager.history
    ensures Grows(old(manager.store.ever), manager.store.ever) && Recorded(act, done, manager.store.ever)
    ensures old(manager.store.faults) == [] ==> manager.store.faults == [] && (act.Checkpoint? ==> done.Some?)
  {
    match act {
      case Checkpoint(chunks, entries, digest) =>
        done := CheckpointWhole(manager, chunks, entries, digest);
      case MarkNow(at) =>
        manager.Mark(at);
        done := None;
      case SweepNow(marking, at) =>
        var _ := manager.Sweep(marking, at);
        done := None;
    }
  }

  /**
   Over any sequence of whole checkpoints, markings and sweeps: of all generations ever
   committed the newest `retain` are still there, with the manifest and digest they were
   committed with and every chunk that names; and whatever is gone had carried its mark for
   the grace period.
   */
  method RunRetention(manager: RetentionManager, acts: seq<Act>) returns (done: seq<Option<nat>>)
    requires manager.Valid() && forall i | 0 <= i < |acts| :: ReadsAll(manager.store.sha, acts[i])
    modifies manager, manager.store
    ensures manager.Valid() && manager.Safe() && manager.Patient() && old(manager.history) <= manager.history
    ensures Grows(old(manager.store.ever), manager.store.ever)
    ensures |done| == |acts| && forall i | 0 <= i < |acts| :: Recorded(acts[i], done[i], manager.store.ever)
    ensures old(manager.store.faults) == [] ==> forall i | 0 <= i < |acts| && acts[i].Checkpoint? :: done[i].Some?
  {
    done := [];
    ghost var sound := manager.store.faults == [];
    for i := 0 to |acts|
      invariant manager.Valid() && old(manager.history) <= manager.history
      invariant Grows(old(manager.store.ever), manager.store.ever) && (sound ==> manager.store.faults == [])
      invariant Told(acts, i, done, manager.store.ever, sound)
    {
      ghost var before := manager.store.ever;
      var one := Perform(manager, acts[i]);
      GrowsFurther(old(manager.store.ever), before, manager.store.ever);
      ToldOneMore(acts, i, done, one, before, manager.store.ever, sound);
      done := done + [one];
    }
  }

  /** The outcomes of the first `n` acts are on record, and without faults every checkpoint has one. */
  ghost predicate Told(acts: seq<Act>, n: nat, done: seq<Option<nat>>, ever: map<nat, Sealed>, sound: bool)
  {
    && |done| == n <= |acts|
    && (forall j | 0 <= j < n :: Recorded(acts[j], done[j], ever))
    && (sound ==> forall j | 0 <= j < n && acts[j].Checkpoint? :: done[j].Some?)
  }

  lemma ToldOneMore(acts: seq<Act>, n: nat, done: seq<Option<nat>>, one: Option<nat>,
                    before: map<nat, Sealed>, ever: map<nat, Sealed>, sound: bool)
    requires n < |acts| && Told(acts, n, done, before, sound) && Grows(before, ever) && Recorded(acts[n], one, ever)
    requires sound && acts[n].Checkpoint? ==> one.Some?
    ensures Told(acts, n + 1, done + [one], ever, sound)
  {
    forall j | 0 <= j < n
      ensures Recorded(acts[j], done[j], ever)
    {
      assert Recorded(acts[j], done[j], before);
    }
  }

  lemma GrowsFurther<K, V>(a: map<K, V>, b: map<K, V>, c: map<K, V>)
    requires Grows(a, b) && Grows(b, c)
    ensures Grows(a, c)
  {
  }

  // ---------------------------------------------------- a sweep inside a checkpoint

  /**
   Why a sweep must not fall inside a checkpoint: the writer is told that a chunk is already
   there, the sweep takes it because nobody refers to it yet, and the commit is incomplete.
   */
  method SweepInsideCheckpoint(manager: RetentionManager, body: Bytes, e: Entry, digest: Digest, now: int)
    requires manager.Valid() && manager.store.faults == [] && manager.store.commits == map[]
    requires manager.store.manifests == map[]
    requires manager.store.chunks == map[manager.store.sha(body) := body] && e.chunks == [manager.store.sha(body)]
    requires manager.DueAt(Chunk(manager.store.sha(body)), now, now)
    modifies manager, manager.store
    ensures 1 in manager.store.commits && 1 in Retained(manager.store.commits.Keys, manager.retain)
    ensures 1 in manager.store.manifests && manager.store.manifests[1] == Sealed(digest, [e])
    ensures !RetainedComplete(manager.retain, manager.store.chunks.Keys, manager.store.manifests, manager.store.commits)
  {
    var d := manager.store.sha(body);
    SweptAfterUpload(manager, body, d, now);
    SealAndCommit(manager.store, Sealed(digest, [e]));
    LostChunk(manager.retain, manager.store.chunks.Keys, manager.store.manifests, manager.store.commits, 1, e, d);
  }

  /** The writer hears that the chunk is there, and it is swept. */
  method SweptAfterUpload(manager: RetentionManager, body: Bytes, d: Digest, now: int)
    requires manager.Valid() && manager.store.faults == [] && manager.store.commits == map[]
    requires manager.store.manifests == map[] && d == manager.store.sha(body)
    requires manager.store.chunks == map[d := body] && manager.DueAt(Chunk(d), now, now)
    modifies manager, manager.store
    ensures manager.Valid() && manager.store.faults == [] && d !in manager.store.chunks
    ensures manager.store.manifests == map[] && manager.store.commits == map[]
  {
    var store := manager.store;
    var present := store.UploadChunk(d, body);
    assert present.Ok? && store.chunks == old(store.chunks);
    var swept := manager.Sweep(now, now);
    assert Chunk(d) in swept && d in Swept(swept);
  }

  /** The first generation is sealed and committed. */
  method SealAndCommit(store: Store, sealed: Sealed)
    requires store.Valid() && store.faults == [] && store.manifests == map[] && store.commits == map[]
    modifies store
    ensures store.chunks == old(store.chunks)
    ensures store.manifests == map[1 := sealed] && store.commits == map[1 := sealed.digest]
  {
    var uploaded := store.UploadManifest(1, sealed);
    var committed := store.CommitGeneration(1, sealed.digest);
    assert uploaded.Ok? && committed.Ok?;
  }

  lemma LostChunk(retain: nat, chunks: set<Digest>, manifests: map<nat, Sealed>, commits: map<nat, Digest>, g: nat,
                  e: Entry, d: Digest)
    requires retain > 0 && commits.Keys == {g} && g in manifests && e in manifests[g].entries && d in e.chunks
    requires d !in chunks
    ensures g in Retained(commits.Keys, retain) && !RetainedComplete(retain, chunks, manifests, commits)
  {
    assert Newer(commits.Keys, g) == {};
  }

  /** Such a state is reached: a checkpoint that failed after one upload, then a marking one grace period ago. */
  method LeftoverChunk(store: Store, body: Bytes, grace: int) returns (manager: RetentionManager)
    requires store.Valid() && !store.indexed && store.faults == [] && grace > 0
    requires store.chunks == map[] && store.manifests == map[] && store.commits == map[] && store.stored == {}
    requires store.ever == map[]
    modifies store
    ensures manager.Valid() && manager.store == store && store.faults == [] && store.commits == map[]
    ensures store.manifests == map[]
    ensures store.chunks == map[store.sha(body) := body] && manager.DueAt(Chunk(store.sha(body)), grace, grace)
  {
    var uploaded := store.UploadChunk(store.sha(body), body);
    assert uploaded.Ok?;
    manager := new RetentionManager(store, 2, grace);
    manager.Mark(0);
  }
}
