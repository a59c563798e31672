/**
 Two sides of the leases: a holder that keeps beating and serving is never
 displaced, and a record nobody writes can always be started again.
 */
module SandboxLiveness {
  import opened Base
  import opened SandboxRecord
  import opened SandboxSystem
  import opened SandboxInvariants

  // ---------------------------------------------------------- no self-lock

  /** The four control-plane steps of one uninterrupted start. */
  function StartSteps(s: System, rotated: Session): seq<Step>
  {
    var view := ViewOf(s.rec);
    var outcome := DecideStart(view, s.rec.session, s.now, false, rotated);
    [ OpenStart,
      ReadStart(s.rec.session),
      DecideTheStart(StartRead(view, s.rec.session, s.now, |s.log|), rotated, false),
      LandPut(PutReady(view, if outcome.Rotate? then outcome.updated else view, ForStart, |s.log|)) ]
  }

  lemma QuietRecordRotates(s: System, past: int, rotated: Session)
    requires LeaseFollowsSession(s.rec.leaseOwner, s.rec.session)
    requires TimelyView(ViewOf(s.rec), past) && s.now >= past + START_GRACE
    ensures DecideStart(ViewOf(s.rec), s.rec.session, s.now, false, rotated).Rotate?
  {
  }

  lemma StartLands(s: System, rotated: Session)
    requires rotated !in s.used
    requires DecideStart(ViewOf(s.rec), s.rec.session, s.now, false, rotated).Rotate?
    ensures var s' := Run(s, StartSteps(s, rotated));
            && s'.rec.session == rotated && s'.rec.state == STARTING && s'.rec.initOwner == None
            && s'.log == s.log + [Rotated(rotated, |s.log|)]
            && s'.now == s.now && s'.containers == s.containers && s'.calls == s.calls
  {
    var steps := StartSteps(s, rotated);
    StartDecided(s, rotated);
    StartPut(Next(Next(Next(s, steps[0]), steps[1]), steps[2]), steps[3].task, rotated);
    RunFour(s, steps);
  }

  /** Up to the put, a start only adds its own tasks. */
  lemma StartDecided(s: System, rotated: Session)
    requires DecideStart(ViewOf(s.rec), s.rec.session, s.now, false, rotated).Rotate? && rotated !in s.used
    ensures var steps := StartSteps(s, rotated);
            Next(Next(Next(s, steps[0]), steps[1]), steps[2])
            == s.(tasks := s.tasks + {StartOpened(s.rec.session)} + {steps[2].task} + {steps[3].task})
  {
    var steps := StartSteps(s, rotated);
    var s1 := s.(tasks := s.tasks + {StartOpened(s.rec.session)});
    var s2 := s1.(tasks := s1.tasks + {steps[2].task});
    assert Next(s, steps[0]) == s1;
    assert Next(s1, steps[1]) == s2;
  }

  /** The put lands: nothing wrote the record since it was read. */
  lemma StartPut(s: System, task: Task, rotated: Session)
    requires task.PutReady? && task in s.tasks && task.kind == ForStart && rotated !in s.used
    requires task.read == ViewOf(s.rec) && task.after == |s.log|
    requires var outcome := DecideStart(task.read, s.rec.session, s.now, false, rotated);
             outcome.Rotate? && task.updated == outcome.updated
    ensures var s' := Next(s, LandPut(task));
            && s'.rec.session == rotated && s'.rec.state == STARTING && s'.rec.initOwner == None
            && s'.log == s.log + [Rotated(rotated, |s.log|)]
            && s'.now == s.now && s'.containers == s.containers && s'.calls == s.calls
  {
  }

  lemma RunFirst(s: System, step: Step, rest: seq<Step>)
    ensures Run(s, [step] + rest) == Run(Next(s, step), rest)
  {
    assert ([step] + rest)[1..] == rest;
  }

  lemma RunFour(s: System, steps: seq<Step>)
    requires |steps| == 4
    ensures Run(s, steps) == Next(Next(Next(Next(s, steps[0]), steps[1]), steps[2]), steps[3])
  {
    var s1 := Next(s, steps[0]);
    var s2 := Next(s1, steps[1]);
    var s3 := Next(s2, steps[2]);
    assert steps == [steps[0]] + ([steps[1]] + ([steps[2]] + ([steps[3]] + [])));
    RunFirst(s, steps[0], [steps[1]] + ([steps[2]] + ([steps[3]] + [])));
    RunFirst(s1, steps[1], [steps[2]] + ([steps[3]] + []));
    RunFirst(s2, steps[2], [steps[3]] + []);
    RunFirst(s3, steps[3], []);
  }

  /**
   After five minutes in which nothing changed the record, a start rotates the
   session without a lease conflict, and the first claim under the new session
   is authorized and applies, whoever makes it and whenever it lands.
   */
  lemma NoSelfLock(s: System, quiet: seq<Step>, rotated: Session, instance: Instance, at: int)
    requires Inv(s)
    requires Run(s, quiet).rec == s.rec && Run(s, quiet).now >= s.now + START_GRACE
    requires rotated !in Run(s, quiet).used
    requires instance in Run(s, quiet).containers && Run(s, quiet).containers[instance].ready.None?
    ensures var e := Run(s, quiet);
            var started := Run(e, StartSteps(e, rotated));
            && started.log == e.log + [Rotated(rotated, |e.log|)]
            && started.rec.session == rotated
            && CanSend(started, AcquireInit, rotated, instance)
            && Guard(started.rec, Call(AcquireInit, rotated, instance, at))
  {
    var e := Run(s, quiet);
    QuietRecordRotates(e, s.now, rotated);
    StartLands(e, rotated);
  }

  // -------------------------------------------------- live-holder stability

  /**
   How promptly the holder works: seconds between applied lease beats, age of
   the service each beat reports, delay from a beat's clock to its write, and
   delay from a start's read of the record to its look at the clock.
   */
  datatype Pace = Pace(beat: nat, served: nat, lag: nat, read: nat)

  predicate Prompt(p: Pace)
  {
    p.beat + p.served + p.lag <= TAKEOVER_IDLE && p.beat + p.lag + p.read < START_LEASE
  }

  predicate Applies(s: System, step: Step)
  {
    step.Deliver? && step.call in s.calls && Guard(s.rec, step.call)
  }

  predicate BeatsFor(s: System, step: Step, holder: Instance)
  {
    Applies(s, step) && step.call.op.HeartbeatLease? && step.call.instance == holder
  }

  predicate KeepsPace(s: System, step: Step, holder: Instance, p: Pace)
  {
    && (BeatsFor(s, step, holder) ==>
          s.now - step.call.at <= p.lag && step.call.op.served >= step.call.at - p.served)
    && (step.DecideTheStart? && step.task.StartRead? ==> s.now - step.task.readAt <= p.read)
  }

  /** Until the record is stopped, no more than `p.beat` seconds pass without an applied beat. */
  ghost predicate Attended(s: System, steps: seq<Step>, holder: Instance, last: int, p: Pace)
    decreases |steps|
  {
    || s.rec.state == STOPPED
    || (&& s.now - last <= p.beat
        && (steps == [] ||
            (&& KeepsPace(s, steps[0], holder, p)
             && Attended(Next(s, steps[0]), steps[1..], holder,
                         if BeatsFor(s, steps[0], holder) then s.now else last, p))))
  }

  /** The step hands the sandbox to somebody: a claim applies or the session rotates. */
  predicate Displaces(s: System, step: Step)
  {
    || (Applies(s, step) && step.call.op.AcquireInit?)
    || (step.LandPut? && step.task in s.tasks && step.task.PutReady? && step.task.kind.ForStart?
        && step.task.read.version == s.rec.version)
  }

  /** The holder and the session stay, and no step displaces them, until the record is stopped. */
  ghost predicate HeldThroughout(s: System, steps: seq<Step>, holder: Instance, session: Session)
    decreases |steps|
  {
    || s.rec.state == STOPPED
    || (&& s.rec.holder == Some(holder) && s.rec.session == session
        && (steps == [] ||
            (!Displaces(s, steps[0]) && HeldThroughout(Next(s, steps[0]), steps[1..], holder, session))))
  }

  predicate RecordHeld(r: Record, holder: Instance, session: Session, last: int, p: Pace)
  {
    && r.session == session && r.holder == Some(holder) && r.initOwner == None
    && r.state in {READY, BUSY, CHECKPOINTING, STOPPING}
    && r.leaseExpires.Some? && r.leaseExpires.value >= last - p.lag + START_LEASE
    && r.lastServed.Some? && r.lastServed.value >= last - p.lag - p.served
  }

  /** In-flight control-plane work that could still win its compare-and-swap cannot rotate the session. */
  predicate Harmless(t: Task, version: nat, p: Pace)
  {
    && (t.StartRead? && t.view.version == version ==>
          t.view.leaseExpires.Some? && t.view.leaseExpires.value >= t.readAt - p.beat - p.lag + START_LEASE)
    && (t.PutReady? && t.read.version == version ==> t.kind.ForStop?)
  }

  predicate Holding(s: System, holder: Instance, session: Session, last: int, p: Pace)
  {
    && RecordHeld(s.rec, holder, session, last, p)
    && (forall t | t in s.tasks :: Harmless(t, s.rec.version, p))
  }

  /** `markReady` publishes READY together with a live lease, so the winner holds from that moment. */
  lemma MarkReadyHolds(s: System, call: Call, reply: bool, p: Pace)
    requires TasksOk(s) && Guard(s.rec, call) && call.op.MarkReady?
    requires s.now - call.at <= p.lag
    ensures Holding(Applied(s, call, reply), call.instance, call.session, s.now, p)
  {
    var s' := Applied(s, call, reply);
    forall t | t in s'.tasks
      ensures Harmless(t, s'.rec.version, p)
    {
      assert TaskOk(s, t);
    }
  }

  lemma HeldDeliver(s: System, step: Step, holder: Instance, session: Session, last: int, p: Pace)
    requires Clocked(s) && TasksOk(s) && Holding(s, holder, session, last, p) && Prompt(p)
    requires s.now - last <= p.beat && Applies(s, step) && KeepsPace(s, step, holder, p)
    ensures !step.call.op.AcquireInit?
    ensures Holding(Applied(s, step.call, step.reply), holder, session,
                    if BeatsFor(s, step, holder) then s.now else last, p)
  {
    WriteVersions(s.rec, step.call);
    var s' := Applied(s, step.call, step.reply);
    forall t | t in s'.tasks
      ensures Harmless(t, s'.rec.version, p)
    {
      assert TaskOk(s, t);
      assert Harmless(t, s.rec.version, p);
    }
  }

  lemma HeldOther(s: System, step: Step, holder: Instance, session: Session, last: int, p: Pace)
    requires Holding(s, holder, session, last, p) && Prompt(p)
    requires s.now - last <= p.beat && !step.Deliver? && !step.LandPut? && KeepsPace(s, step, holder, p)
    ensures Holding(Next(s, step), holder, session, last, p)
  {
    if step.DecideTheStart? && step.task in s.tasks {
      assert Harmless(step.task, s.rec.version, p);
    }
  }

  lemma HeldLand(s: System, step: Step, holder: Instance, session: Session, last: int, p: Pace)
    requires TasksOk(s) && Holding(s, holder, session, last, p) && step.LandPut?
    ensures !Displaces(s, step)
    ensures Next(s, step).rec.state == STOPPED || Holding(Next(s, step), holder, session, last, p)
  {
    if step.task in s.tasks {
      assert TaskOk(s, step.task);
      assert Harmless(step.task, s.rec.version, p);
    }
  }

  /**
   Over every run in which the holder keeps its pace, whatever stale reads and
   late writes are in flight, nobody else's claim applies and the session is not
   rotated before the record is stopped.
   */
  lemma {:induction false} LiveHolderIsStable(
      s: System, steps: seq<Step>, holder: Instance, session: Session, last: int, p: Pace)
    requires Inv(s) && Holding(s, holder, session, last, p) && Prompt(p)
    requires Attended(s, steps, holder, last, p)
    ensures HeldThroughout(s, steps, holder, session)
    decreases |steps|
  {
    if steps != [] {
      var step := steps[0];
      var next := Next(s, step);
      if Applies(s, step) {
        HeldDeliver(s, step, holder, session, last, p);
      } else if step.LandPut? {
        HeldLand(s, step, holder, session, last, p);
      } else if !step.Deliver? {
        HeldOther(s, step, holder, session, last, p);
      }
      if next.rec.state != STOPPED {
        InvNext(s, step);
        LiveHolderIsStable(next, steps[1..], holder, session,
                           if BeatsFor(s, step, holder) then s.now else last, p);
      }
    }
  }

  /** From the moment its `markReady` applies, a container that keeps its pace keeps the sandbox. */
  lemma ReadyHolderKeepsSandbox(s: System, call: Call, reply: bool, steps: seq<Step>, p: Pace)
    requires Reachable(s) && Applies(s, Deliver(call, reply)) && call.op.MarkReady? && Prompt(p)
    requires s.now - call.at <= p.lag
    requires Attended(Next(s, Deliver(call, reply)), steps, call.instance, s.now, p)
    ensures HeldThroughout(Next(s, Deliver(call, reply)), steps, call.instance, call.session)
  {
    ReachableInv(s);
    MarkReadyHolds(s, call, reply, p);
    InvNext(s, Deliver(call, reply));
    assert Next(s, Deliver(call, reply)) == Applied(s, call, reply);
    LiveHolderIsStable(Applied(s, call, reply), steps, call.instance, call.session, s.now, p);
  }
}
