/**
 What the sandbox protocol guarantees in every reachable state and over every run.
 */
module SandboxSafety {
  import opened Base
  import opened SandboxRecord
  import opened SandboxSystem
  import opened SandboxInvariants

  /** The holder is whoever acquired last, and only that instance's beats and receipts were ever applied. */
  lemma HolderIsFenced(s: System)
    requires Reachable(s)
    ensures s.rec.holder == LastAcquirer(s.log)
    ensures s.rec.initOwner.Some? ==> s.rec.initOwner == LastAcquirer(s.log)
    ensures Fenced(s.log)
  {
    ReachableInv(s);
  }

  /** However control-plane rewrites and broker updates interleave, versioned fields hold the last value written. */
  lemma RewritesLoseNothingVersioned(s: System)
    requires Reachable(s)
    ensures s.rec.pointer == LastAccepted(s.log)
    ensures s.rec.holder == LastAcquirer(s.log)
    ensures s.rec.restoreSeconds == LastRestoreSeconds(s.log)
    ensures s.rec.nextDueAt == (if LastDue(s.log).None? then None else Some(LastDue(s.log).value.0))
    ensures s.rec.nextDueJob == (if LastDue(s.log).None? then None else Some(LastDue(s.log).value.1))
  {
    ReachableInv(s);
  }

  /**
   The generation pointer is the largest catalogued generation and every catalogued digest
   is its write-once commit's.
   */
  lemma CatalogMatchesCommits(s: System)
    requires Reachable(s)
    ensures s.rec.pointer.None? <==> s.catalog.Keys == {}
    ensures s.rec.pointer.Some? ==> s.rec.pointer.value == MaxOf(s.catalog.Keys)
    ensures forall g | g in s.catalog :: g in s.commits && s.commits[g] == s.catalog[g]
    ensures forall t | t in s.tokens :: t.gen in s.catalog && s.catalog[t.gen] == t.digest
  {
    ReachableInv(s);
    if s.rec.pointer.Some? {
      assert s.rec.pointer.value in s.catalog.Keys;
    }
  }

  /** A restore never finds the commits behind the generation pointer it read, however late it lists them. */
  lemma {:induction false} CommitsNeverBehindPointer(s: System, steps: seq<Step>)
    requires Reachable(s) && s.rec.pointer.Some?
    ensures MaxOf(Run(s, steps).commits.Keys) >= s.rec.pointer.value
  {
    ReachableInv(s);
    assert s.rec.pointer.value in s.commits;
    CommitsGrow(s, steps);
  }

  lemma {:induction false} CommitsGrow(s: System, steps: seq<Step>)
    ensures forall g | g in s.commits :: g in Run(s, steps).commits && Run(s, steps).commits[g] == s.commits[g]
    decreases |steps|
  {
    if steps != [] {
      CommitsGrow(Next(s, steps[0]), steps[1..]);
    }
  }

  /** Accepting a receipt is the only way the generation pointer moves, and it moves forward. */
  lemma PointerStep(s: System, step: Step)
    requires TasksOk(s) && CallsOk(s) && s.rec.pointer.Some?
    ensures Next(s, step).rec.pointer.Some? && Next(s, step).rec.pointer.value >= s.rec.pointer.value
  {
    if step.LandPut? && step.task in s.tasks {
      assert TaskOk(s, step.task);
    }
  }

  lemma {:induction false} PointerNeverDecreases(s: System, steps: seq<Step>)
    requires Inv(s) && s.rec.pointer.Some?
    ensures Run(s, steps).rec.pointer.Some? && Run(s, steps).rec.pointer.value >= s.rec.pointer.value
    decreases |steps|
  {
    if steps != [] {
      PointerStep(s, steps[0]);
      InvNext(s, steps[0]);
      PointerNeverDecreases(Next(s, steps[0]), steps[1..]);
    }
  }

  // ------------------------------------------------------- dead sessions

  /** An applied call other than an init heartbeat, which carries no session condition. */
  predicate SessionBound(e: Event) { e.Wrote? && !e.call.op.HeartbeatInit? }

  /** What a step may do to a session that is gone: nothing. */
  ghost predicate StaysGone(s: System, s': System, gone: Session)
  {
    && gone in s'.used && gone != s'.rec.session && s.log <= s'.log
    && forall k | |s.log| <= k < |s'.log| && SessionBound(s'.log[k]) :: s'.log[k].call.session != gone
  }

  lemma DeadDeliver(s: System, c: Call, reply: bool, gone: Session)
    requires Owned(s) && gone in s.used && gone != s.rec.session && Guard(s.rec, c)
    ensures StaysGone(s, Applied(s, c, reply), gone)
  {
    WriteVersions(s.rec, c);
  }

  lemma DeadLand(s: System, put: Task, gone: Session)
    requires TaskOk(s, put) && put.PutReady? && put.read.version == s.rec.version
    requires gone in s.used && gone != s.rec.session
    ensures StaysGone(s, Landed(s, put), gone)
  {
  }

  lemma DeadStep(s: System, step: Step, gone: Session)
    requires Owned(s) && TasksOk(s) && gone in s.used && gone != s.rec.session
    ensures StaysGone(s, Next(s, step), gone)
  {
    match step
    case Deliver(c, reply) => if c in s.calls && Guard(s.rec, c) { DeadDeliver(s, c, reply, gone); }
    case LandPut(put) =>
      if put in s.tasks && put.PutReady? && put.read.version == s.rec.version {
        assert TaskOk(s, put);
        DeadLand(s, put, gone);
      }
    case _ => DeadOtherwise(s, step, gone);
  }

  lemma DeadOtherwise(s: System, step: Step, gone: Session)
    requires !step.Deliver? && !step.LandPut? && gone in s.used && gone != s.rec.session
    ensures StaysGone(s, Next(s, step), gone)
  {
  }

  /** Once a session is rotated away, nothing authorized under it is ever applied again. */
  lemma {:induction false} RotatedSessionsAreDead(s: System, steps: seq<Step>, gone: Session)
    requires Inv(s) && gone in s.used && gone != s.rec.session
    ensures s.log <= Run(s, steps).log
    ensures forall k | |s.log| <= k < |Run(s, steps).log| && SessionBound(Run(s, steps).log[k]) ::
              Run(s, steps).log[k].call.session != gone
    decreases |steps|
  {
    if steps != [] {
      var s1 := Next(s, steps[0]);
      DeadStep(s, steps[0], gone);
      InvNext(s, steps[0]);
      RotatedSessionsAreDead(s1, steps[1..], gone);
      var end := Run(s1, steps[1..]).log;
      assert forall k | 0 <= k < |s1.log| :: end[k] == s1.log[k];
    }
  }

  // --------------------------------------------------------- stop safety

  /**
   Every stop presented a receipt for the current generation, durably committed, with
   nothing versioned since the check.
   */
  lemma StopsAreSafe(s: System, k: nat)
    requires Reachable(s) && k < |s.log| && s.log[k].Stopped?
    ensures var token := s.log[k].token;
            && LastAccepted(s.log[..k]) == Some(token.gen)
            && token.gen in s.catalog && s.catalog[token.gen] == token.digest
            && token.gen in s.commits && s.commits[token.gen] == token.digest
    ensures s.log[k].seen <= k && forall j | s.log[k].seen <= j < k :: !IsReceipt(s.log[j])
  {
    ReachableInv(s);
    assert s.log[k].token in s.tokens;
    var before := s.log[..k];
    assert QuietSince(before, s.log[k].seen);
    forall j | s.log[k].seen <= j < k
      ensures !IsReceipt(s.log[j])
    {
      assert before[j] == s.log[j];
      assert !Bumps(before[j]);
    }
  }

  /**
   The only way into STOPPED is that checked put, and it leaves the generation pointer at
   the receipt's generation.
   */
  lemma OnlyACheckedPutStops(s: System, step: Step)
    requires TasksOk(s) && s.rec.state != STOPPED && Next(s, step).rec.state == STOPPED
    ensures step.LandPut? && step.task.PutReady? && step.task.kind.ForStop?
    ensures s.rec.state == STOPPING
    ensures Next(s, step).rec.pointer == Some(step.task.kind.token.gen) == s.rec.pointer
    ensures Next(s, step).log == s.log + [Stopped(step.task.kind.token, step.task.kind.seen, step.task.after)]
  {
    if step.LandPut? && step.task in s.tasks {
      assert TaskOk(s, step.task);
    }
  }

  // ------------------------------------------- what a rewrite changes

  /**
   A put that lands changes exactly its operation's own versioned fields of the record as it
   is now, and drops the init owner. What moves without the version goes back to what the read saw.
   */
  lemma PutChangesOnlyItsOwn(s: System, put: Task)
    requires Inv(s) && put in s.tasks && put.PutReady? && put.read.version == s.rec.version
    ensures var r, r' := s.rec, Next(s, LandPut(put)).rec;
            && r'.version == r.version + 1 && r'.initOwner == None && r'.pointerDigest == None
            && r'.pointer == r.pointer && r'.holder == r.holder && r'.lastRestore == r.lastRestore
            && r'.nextDueAt == r.nextDueAt && r'.nextDueJob == r.nextDueJob && r'.restoreSeconds == r.restoreSeconds
            && r'.initExpires == put.read.initExpires && r'.lastServed == put.read.lastServed
            && r'.restoreProgress == put.read.restoreProgress
            && match put.kind {
                 case ForStart =>
                   && r'.state == STARTING && r'.leaseOwner == Some(r'.session)
                   && r'.session !in s.used && r'.deletion == r.deletion
                 case ForStop(_, _) =>
                   && r'.state == STOPPED && r'.leaseOwner == None && r'.leaseExpires == None
                   && r'.session == r.session && r'.deletion == r.deletion
                 case ForDeletion =>
                   && r'.state == r.state == STOPPED && r'.leaseOwner == r.leaseOwner
                   && r'.leaseExpires == put.read.leaseExpires
                   && r'.session == r.session && r'.deletion.Some?
               }
  {
    assert TaskOk(s, put);
  }
}
