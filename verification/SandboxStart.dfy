/**
 While a container restores: from the moment its claim applies, its init
 heartbeats alone keep every other container and every rewrite away until it
 reports ready or failed.
 */
module SandboxStart {
  import opened Base
  import opened SandboxRecord
  import opened SandboxSystem
  import opened SandboxInvariants
  import opened SandboxLiveness

  /**
   How promptly a starting container works: seconds between applied init beats,
   delay from a beat's clock to its write, and delay from a start's read of the
   record to its look at the clock.
   */
  datatype StartPace = StartPace(beat: nat, lag: nat, read: nat)

  predicate PromptStart(p: StartPace) { p.beat + p.lag + p.read < INIT_LEASE }

  /** The owner renews its init lease, by a heartbeat or by claiming again. */
  predicate Renews(s: System, step: Step, owner: Instance)
  {
    Applies(s, step) && step.call.instance == owner && (step.call.op.HeartbeatInit? || step.call.op.AcquireInit?)
  }

  /** The owner reports the end of its start. */
  predicate Finishes(s: System, step: Step, owner: Instance)
  {
    Applies(s, step) && step.call.instance == owner && (step.call.op.MarkReady? || step.call.op.MarkError?)
  }

  predicate KeepsStartPace(s: System, step: Step, owner: Instance, p: StartPace)
  {
    && (Renews(s, step, owner) ==> s.now - step.call.at <= p.lag)
    && (step.DecideTheStart? && step.task.StartRead? ==> s.now - step.task.readAt <= p.read)
  }

  /** Until the owner finishes, no more than `p.beat` seconds pass without a renewal. */
  ghost predicate Nursed(s: System, steps: seq<Step>, owner: Instance, last: int, p: StartPace)
    decreases |steps|
  {
    && s.now - last <= p.beat
    && (|| steps == []
        || Finishes(s, steps[0], owner)
        || (&& KeepsStartPace(s, steps[0], owner, p)
            && Nursed(Next(s, steps[0]), steps[1..], owner, if Renews(s, steps[0], owner) then s.now else last, p)))
  }

  /** The step lets somebody else in: another claim applies, another report applies, or any rewrite lands. */
  predicate Intrudes(s: System, step: Step, owner: Instance)
  {
    || (Applies(s, step) && step.call.instance != owner
        && (step.call.op.AcquireInit? || step.call.op.MarkReady? || step.call.op.MarkError?))
    || (step.LandPut? && step.task in s.tasks && step.task.PutReady? && step.task.read.version == s.rec.version)
  }

  /** Owner and session stay and nothing intrudes until the owner finishes. */
  ghost predicate Undisturbed(s: System, steps: seq<Step>, owner: Instance, session: Session)
    decreases |steps|
  {
    && s.rec.initOwner == Some(owner) && s.rec.holder == Some(owner)
    && s.rec.session == session && s.rec.state == RESTORING
    && (|| steps == []
        || Finishes(s, steps[0], owner)
        || (!Intrudes(s, steps[0], owner) && Undisturbed(Next(s, steps[0]), steps[1..], owner, session)))
  }

  predicate RecordClaimed(r: Record, owner: Instance, session: Session, last: int, p: StartPace)
  {
    && r.session == session && r.holder == Some(owner) && r.initOwner == Some(owner) && r.state == RESTORING
    && r.initExpires.Some? && r.initExpires.value >= last - p.lag + INIT_LEASE
  }

  /** In-flight control-plane work can neither rotate the session nor win its compare-and-swap. */
  predicate Barred(t: Task, version: nat, p: StartPace)
  {
    && (t.StartRead? && t.view.version == version ==>
          t.view.initExpires.Some? && t.view.initExpires.value >= t.readAt - p.beat - p.lag + INIT_LEASE)
    && (t.PutReady? ==> t.read.version != version)
  }

  predicate Claimed(s: System, owner: Instance, session: Session, last: int, p: StartPace)
  {
    && RecordClaimed(s.rec, owner, session, last, p)
    && (forall t | t in s.tasks :: Barred(t, s.rec.version, p))
  }

  /** An applied claim starts the period: everything read before it is already out of date. */
  lemma ClaimBegins(s: System, call: Call, reply: bool, p: StartPace)
    requires TasksOk(s) && Guard(s.rec, call) && call.op.AcquireInit? && s.now - call.at <= p.lag
    ensures Claimed(Applied(s, call, reply), call.instance, call.session, s.now, p)
  {
    var s' := Applied(s, call, reply);
    forall t | t in s'.tasks
      ensures Barred(t, s'.rec.version, p)
    {
      assert TaskOk(s, t);
    }
  }

  lemma ClaimedDeliver(s: System, step: Step, owner: Instance, session: Session, last: int, p: StartPace)
    requires Clocked(s) && TasksOk(s) && Claimed(s, owner, session, last, p) && PromptStart(p)
    requires s.now - last <= p.beat && Applies(s, step) && KeepsStartPace(s, step, owner, p)
    requires !Finishes(s, step, owner)
    ensures !Intrudes(s, step, owner)
    ensures Claimed(Applied(s, step.call, step.reply), owner, session,
                    if Renews(s, step, owner) then s.now else last, p)
  {
    WriteVersions(s.rec, step.call);
    var s' := Applied(s, step.call, step.reply);
    forall t | t in s'.tasks
      ensures Barred(t, s'.rec.version, p)
    {
      assert TaskOk(s, t);
      assert Barred(t, s.rec.version, p);
    }
  }

  lemma ClaimedOther(s: System, step: Step, owner: Instance, session: Session, last: int, p: StartPace)
    requires TasksOk(s) && Claimed(s, owner, session, last, p) && PromptStart(p)
    requires s.now - last <= p.beat && !Applies(s, step) && KeepsStartPace(s, step, owner, p)
    ensures !Intrudes(s, step, owner)
    ensures Claimed(Next(s, step), owner, session, last, p)
  {
    if (step.DecideTheStart? || step.ReadStop? || step.LandPut?) && step.task in s.tasks {
      assert Barred(step.task, s.rec.version, p);
      assert TaskOk(s, step.task);
    }
  }

  /** Over every run in which the owner nurses its claim, whatever is in flight, it is undisturbed until it finishes. */
  lemma {:induction false} ClaimIsStable(s: System, steps: seq<Step>, owner: Instance, session: Session, last: int,
                                         p: StartPace)
    requires Inv(s) && Claimed(s, owner, session, last, p) && PromptStart(p) && Nursed(s, steps, owner, last, p)
    ensures Undisturbed(s, steps, owner, session)
    decreases |steps|
  {
    if steps != [] && !Finishes(s, steps[0], owner) {
      var step := steps[0];
      if Applies(s, step) {
        ClaimedDeliver(s, step, owner, session, last, p);
      } else {
        ClaimedOther(s, step, owner, session, last, p);
      }
      InvNext(s, step);
      ClaimIsStable(Next(s, step), steps[1..], owner, session, if Renews(s, step, owner) then s.now else last, p);
    }
  }

  /** From the moment its claim applies in any reachable state, a nursed start is undisturbed. */
  lemma NursedStartIsUndisturbed(s: System, call: Call, reply: bool, steps: seq<Step>, p: StartPace)
    requires Reachable(s) && Applies(s, Deliver(call, reply)) && call.op.AcquireInit? && PromptStart(p)
    requires s.now - call.at <= p.lag
    requires Nursed(Next(s, Deliver(call, reply)), steps, call.instance, s.now, p)
    ensures Undisturbed(Next(s, Deliver(call, reply)), steps, call.instance, call.session)
  {
    ReachableInv(s);
    ClaimBegins(s, call, reply, p);
    InvNext(s, Deliver(call, reply));
    ClaimIsStable(Applied(s, call, reply), steps, call.instance, call.session, s.now, p);
  }
}
