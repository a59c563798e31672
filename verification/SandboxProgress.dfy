/**
 What each operation on the record achieves: which fields a call writes, which steps
 move the state, when a call is sent and lands, and that a stop and a deletion go through.
 */
module SandboxProgress {
  import opened Base
  import opened SandboxRecord
  import opened SandboxSystem
  import opened SandboxInvariants
  import opened SandboxScenarios
  import opened SandboxLiveness

  // ------------------------------------------------------ field by field

  /** The leases: who owns and extends the start lease and the init lease, and who ends them. */
  lemma CallsAndLeases(r: Record, c: Call)
    ensures var r', op := Write(r, c), c.op;
            && r'.leaseOwner == (if op.MarkReady? then Some(c.session) else r.leaseOwner)
            && r'.leaseExpires == (if op.MarkReady? || op.HeartbeatLease? then Some(c.at + 90) else r.leaseExpires)
            && r'.initOwner == (if op.AcquireInit? then Some(c.instance)
                                else if op.MarkReady? || op.MarkError? then None else r.initOwner)
            && r'.initExpires == (if op.AcquireInit? || op.HeartbeatInit? then Some(c.at + 90)
                                  else if op.MarkReady? || op.MarkError? then None else r.initExpires)
            && r'.holder == (if op.AcquireInit? || op.MarkReady? then Some(c.instance) else r.holder)
  {
  }

  /** The rest: what only some calls write, and what no call ever does. */
  lemma CallsAndContents(r: Record, c: Call)
    ensures var r', op := Write(r, c), c.op;
            && r'.session == r.session && r'.wakeSubject == r.wakeSubject && r'.deletion == r.deletion
            && r'.updatedAt == c.at && r'.version == r.version + (if BeatOp(op) then 0 else 1)
            && r'.state == (if op.AcquireInit? then RESTORING else if op.MarkReady? || op.HealReady? then READY
                            else if op.MarkError? then ERROR else if op.Receipt? && op.final then STOPPING else r.state)
            && (op.HeartbeatLease? && op.served <= c.at ==> r'.lastServed == Some(op.served))
            && ((op.HeartbeatLease? && op.served > c.at) || op.MarkReady? ==> r'.lastServed == Some(c.at))
            && (!op.HeartbeatLease? && !op.MarkReady? ==> r'.lastServed == r.lastServed)
            && r'.lastRestore == (if op.MarkReady? then Some(op.outcome) else r.lastRestore)
            && r'.restoreProgress == (if op.AcquireInit? then None
                                      else if op.HeartbeatInit? && op.progress.Some? then op.progress
                                      else r.restoreProgress)
  {
  }

  /** And what a receipt publishes, which nothing else does. */
  lemma CallsAndCheckpoints(r: Record, c: Call)
    ensures var r', op := Write(r, c), c.op;
            && (!op.Receipt? ==>
                  && r'.pointer == r.pointer && r'.pointerDigest == r.pointerDigest
                  && r'.nextDueAt == r.nextDueAt && r'.nextDueJob == r.nextDueJob
                  && r'.restoreSeconds == r.restoreSeconds)
            && (op.Receipt? ==>
                  && r'.pointer == Some(op.gen) && r'.pointerDigest == Some(op.digest)
                  && (op.hints.due.None? ==> r'.nextDueAt == r.nextDueAt && r'.nextDueJob == r.nextDueJob)
                  && (op.hints.due.Some? ==>
                        (r'.nextDueAt, r'.nextDueJob) == (Some(op.hints.due.value.0), Some(op.hints.due.value.1)))
                  && r'.restoreSeconds == (if op.hints.restoreSeconds.Some? then op.hints.restoreSeconds
                                           else r.restoreSeconds))
  {
  }

  /** A put of what was read keeps everything but the init owner and the checkpoint digest. */
  lemma ViewKeeps(r: Record)
    ensures ItemOf(ViewOf(r)) == r.(initOwner := None, pointerDigest := None)
  {
  }

  // ------------------------------------------------------- what moves the state

  /** This call lands in this step. */
  predicate Lands(s: System, step: Step)
  {
    step.Deliver? && step.call in s.calls && Guard(s.rec, step.call)
  }

  predicate PutsFor(s: System, step: Step)
  {
    step.LandPut? && step.task in s.tasks && step.task.PutReady? && step.task.read.version == s.rec.version
  }

  /**
   The state moves only along these ways: a start puts STARTING; a claim takes STARTING, RESTORING
   or READY to RESTORING; the last claimant ends RESTORING in READY or ERROR; a heal takes STARTING to
   READY; the holder's final receipt takes a serving state to STOPPING; a checked put ends
   STOPPING in STOPPED. BUSY and CHECKPOINTING are never entered.
   */
  lemma StateMoves(s: System, step: Step)
    requires Inv(s) && Next(s, step).rec.state != s.rec.state
    ensures var state, state' := s.rec.state, Next(s, step).rec.state;
            match state' {
              case STARTING => PutsFor(s, step) && step.task.kind.ForStart?
              case RESTORING => Lands(s, step) && step.call.op.AcquireInit? && state in {STARTING, READY}
              case READY =>
                && Lands(s, step)
                && if step.call.op.HealReady? then state == STARTING
                   else && step.call.op.MarkReady? && state == RESTORING
                        && LastAcquirer(s.log) == Some(step.call.instance)
              case ERROR =>
                && Lands(s, step) && step.call.op.MarkError? && state == RESTORING
                && LastAcquirer(s.log) == Some(step.call.instance)
              case STOPPING =>
                && Lands(s, step) && step.call.op.Receipt? && step.call.op.final && state in {READY, CHECKPOINTING}
                && LastAcquirer(s.log) == Some(step.call.instance)
              case STOPPED => PutsFor(s, step) && step.task.kind.ForStop? && state == STOPPING
              case BUSY => false
              case CHECKPOINTING => false
            }
  {
    match step
    case Deliver(c, reply) => if c in s.calls && Guard(s.rec, c) { CallMoves(s, c); }
    case LandPut(put) =>
      if put in s.tasks && put.PutReady? && put.read.version == s.rec.version { PutMoves(s, put); }
    case _ => StateStays(s, step);
  }

  lemma PutMoves(s: System, put: Task)
    requires Inv(s) && put in s.tasks && put.PutReady? && put.read.version == s.rec.version
    ensures match put.kind
            case ForStart => put.updated.state == STARTING
            case ForStop(_, _) => put.updated.state == STOPPED && s.rec.state == STOPPING
            case ForDeletion => put.updated.state == s.rec.state
  {
    assert TaskOk(s, put);
  }

  lemma CallMoves(s: System, c: Call)
    requires Inv(s) && c in s.calls && Guard(s.rec, c)
    ensures Write(s.rec, c).state != s.rec.state ==>
              && (c.op.AcquireInit? ==> s.rec.state in {STARTING, READY})
              && (c.op.HealReady? ==> s.rec.state == STARTING)
              && (c.op.MarkReady? || c.op.MarkError? ==> s.rec.state == RESTORING)
              && (c.op.Receipt? ==> c.op.final && s.rec.state in {READY, CHECKPOINTING})
              && (!c.op.AcquireInit? && !c.op.HealReady? ==> LastAcquirer(s.log) == Some(c.instance))
  {
  }

  lemma StateStays(s: System, step: Step)
    requires !step.Deliver? && !step.LandPut?
    ensures Next(s, step).rec.state == s.rec.state
  {
  }

  // ----------------------------------------------------------- what is sent

  /**
   A call is sent only under the record's own session, at the time of its clock, while the sandbox is
   in use or being initialized, and a receipt only for a commit that is there, above its base.
   */
  lemma SentOnlyInUse(s: System, step: Step, c: Call)
    requires c in Next(s, step).calls && c !in s.calls
    ensures step == Send(c.op, c.session, c.instance) && c.at == s.now && c.instance in s.containers
    ensures c.session == s.rec.session
    ensures s.rec.state in {STOPPED, ERROR} ==> s.rec.initExpires.Some? && s.rec.initExpires.value > s.now
    ensures c.op.AcquireInit? || c.op.HeartbeatInit? || c.op.MarkReady? ==> s.containers[c.instance].ready == None
    ensures c.op.HeartbeatLease? || c.op.HealReady? || c.op.Receipt? ==>
              s.containers[c.instance].ready == Some(c.session)
    ensures c.op.Receipt? ==> c.op.base == s.containers[c.instance].base
    ensures c.op.Receipt? ==> c.op.gen in s.commits && s.commits[c.op.gen] == c.op.digest && c.op.base < c.op.gen
  {
  }

  /** A call is authorized in every state but STOPPED and ERROR, and in those while an init lease lives. */
  lemma AuthorizedInUse(r: Record, now: int)
    ensures r.state !in {STOPPED, ERROR} ==> Authorized(r, r.session, now)
    ensures r.initExpires.Some? && r.initExpires.value > now ==> Authorized(r, r.session, now)
    ensures forall other | other != r.session :: !Authorized(r, other, now)
  {
  }

  /**
   A claim takes only what is free: never from a live initializer, and a READY record under a live lease only from
   another container that is known to have served nobody for a minute.
   */
  lemma ClaimTakesOnlyWhatIsFree(r: Record, c: Call)
    requires c.op.AcquireInit? && Guard(r, c)
    ensures r.session == c.session && r.state in {STARTING, RESTORING, READY}
    ensures r.initOwner == None || r.initOwner == Some(c.instance)
            || (r.initExpires.Some? && r.initExpires.value < c.at)
    ensures r.state == READY && r.leaseExpires.Some? && r.leaseExpires.value >= c.at ==>
              && r.holder.Some? && r.holder.value != c.instance
              && r.lastServed.Some? && r.lastServed.value < c.at - 60
  {
  }

  // ------------------------------------------------- readiness follows a restore

  /** The container has restored, or tried to, by this point of the history. */
  predicate HasRestored(log: seq<Event>, i: Instance)
  {
    exists k | 0 <= k < |log| :: log[k].Restored? && log[k].instance == i
  }

  /** Every report of readiness was preceded by a restore of the same container. */
  predicate ReadyAfterRestore(log: seq<Event>)
  {
    forall k | 0 <= k < |log| && log[k].Wrote? && log[k].call.op.MarkReady? ::
      HasRestored(log[..k], log[k].call.instance)
  }

  ghost predicate RestoredFirst(s: System)
  {
    && (forall i | i in s.containers && s.containers[i].restored :: HasRestored(s.log, i))
    && (forall c | c in s.calls && c.op.MarkReady? :: HasRestored(s.log, c.instance))
    && ReadyAfterRestore(s.log)
  }

  lemma RestoredStays(log: seq<Event>, e: Event)
    ensures forall i | HasRestored(log, i) :: HasRestored(log + [e], i)
    ensures e.Restored? ==> HasRestored(log + [e], e.instance)
    ensures ReadyAfterRestore(log) && (e.Wrote? && e.call.op.MarkReady? ==> HasRestored(log, e.call.instance)) ==>
              ReadyAfterRestore(log + [e])
  {
    var after := log + [e];
    forall i | HasRestored(log, i)
      ensures HasRestored(after, i)
    {
      var k :| 0 <= k < |log| && log[k].Restored? && log[k].instance == i;
      assert after[k] == log[k];
    }
    if e.Restored? { assert after[|log|] == e; }
    assert after[..|log|] == log;
    assert forall k | 0 <= k < |log| :: after[..k] == log[..k];
  }

  /** A step that logs one event, or none, and changes containers and calls only as it may. */
  lemma RestoredFirstStays(s: System, s': System, e: Event)
    requires RestoredFirst(s) && (s'.log == s.log || s'.log == s.log + [e])
    requires s'.log != s.log && e.Wrote? && e.call.op.MarkReady? ==> HasRestored(s.log, e.call.instance)
    requires forall i | i in s'.containers && s'.containers[i].restored ::
               (i in s.containers && s.containers[i].restored) || (s'.log != s.log && e.Restored? && e.instance == i)
    requires forall c | c in s'.calls && c.op.MarkReady? :: c in s.calls || HasRestored(s.log, c.instance)
    ensures RestoredFirst(s')
  {
    RestoredStays(s.log, e);
  }

  lemma AppliedRestoredFirst(s: System, c: Call, reply: bool)
    requires RestoredFirst(s) && c in s.calls
    ensures RestoredFirst(Applied(s, c, reply))
  {
    RestoredFirstStays(s, Applied(s, c, reply), Wrote(c, c.op.Receipt? && Replays(s.rec, c.op), reply));
  }

  lemma QuietRestoredFirst(s: System, step: Step)
    requires RestoredFirst(s) && !step.Deliver? && !step.Restore? && !step.LandPut? && !step.EnrolWake?
    ensures RestoredFirst(Next(s, step))
  {
    RestoredFirstStays(s, Next(s, step), Enrolled(""));
  }

  lemma RestoredFirstNext(s: System, step: Step)
    requires RestoredFirst(s)
    ensures RestoredFirst(Next(s, step))
  {
    match step
    case Deliver(c, reply) => if c in s.calls && Guard(s.rec, c) { AppliedRestoredFirst(s, c, reply); }
    case Restore(i) =>
      if i in s.containers && s.containers[i].ready.None? {
        RestoredFirstStays(s, RestoredBy(s, i, MaxOf(s.commits.Keys)), Restored(i, MaxOf(s.commits.Keys)));
      }
    case LandPut(put) =>
      if put in s.tasks && put.PutReady? && put.read.version == s.rec.version {
        RestoredFirstStays(s, Landed(s, put), EventOf(put));
      }
    case EnrolWake(sealed) => RestoredFirstStays(s, EnrolledAs(s, sealed), Enrolled(sealed));
    case _ => QuietRestoredFirst(s, step);
  }

  lemma {:induction false} RestoredFirstRun(s: System, steps: seq<Step>)
    requires RestoredFirst(s)
    ensures RestoredFirst(Run(s, steps))
    decreases |steps|
  {
    if steps != [] {
      RestoredFirstNext(s, steps[0]);
      RestoredFirstRun(Next(s, steps[0]), steps[1..]);
    }
  }

  /** In every reachable history a container reports ready only after it has restored. */
  lemma ReadyOnlyAfterRestore(s: System)
    requires Reachable(s)
    ensures ReadyAfterRestore(s.log)
  {
    var s0: System, steps: seq<Step> :| Created(s0) && Run(s0, steps) == s;
    RestoredFirstRun(s0, steps);
  }

  // --------------------------------------------------- a start reads what it opened

  /** Every start that has read the record decides for the session it was opened under, one the record has had. */
  ghost predicate OpenedFirst(s: System)
  {
    && s.rec.session in s.used
    && (forall t | t in s.tasks && t.StartRead? :: StartOpened(t.owner) in s.tasks)
    && (forall t | t in s.tasks && t.StartOpened? :: t.owner in s.used)
    && (forall t | t in s.tasks && t.PutReady? :: t.kind.ForStart? || t.updated.session == t.read.session)
  }

  lemma OpenedFirstNext(s: System, step: Step)
    requires OpenedFirst(s)
    ensures OpenedFirst(Next(s, step))
  {
    var s' := Next(s, step);
    assert s.tasks <= s'.tasks && s.used <= s'.used;
    if step.Deliver? { assert s'.rec.session == s.rec.session; }
  }

  lemma {:induction false} OpenedFirstRun(s: System, steps: seq<Step>)
    requires OpenedFirst(s)
    ensures OpenedFirst(Run(s, steps))
    decreases |steps|
  {
    if steps != [] {
      OpenedFirstNext(s, steps[0]);
      OpenedFirstRun(Next(s, steps[0]), steps[1..]);
    }
  }

  /** In every reachable state the session a start decides for is one the record has had. */
  lemma StartsDecideForTheirOwn(s: System, t: Task)
    requires Reachable(s) && t in s.tasks && t.StartRead?
    ensures StartOpened(t.owner) in s.tasks && t.owner in s.used
  {
    var s0: System, steps: seq<Step> :| Created(s0) && Run(s0, steps) == s;
    OpenedFirstRun(s0, steps);
  }

  // ------------------------------------------------------- what a start decides

  /** A start rotates exactly if nothing it read stands in the way, in whatever order it is looked at. */
  lemma RotatesIff(v: View, owner: Session, now: int, confirmed: bool, rotated: Session)
    ensures var outcome := DecideStart(v, owner, now, confirmed, rotated);
            && (outcome.Rotate? <==>
                  && (v.leaseExpires.None? || v.leaseExpires.value <= now)
                  && (v.initExpires.None? || v.initExpires.value <= now)
                  && (confirmed
                      || (&& (v.leaseOwner == None || v.leaseOwner == Some(owner) || v.state == STOPPED)
                          && !(v.state == STARTING && now < v.updatedAt + 300))))
            && (outcome.LeaseConflict? ==>
                  !confirmed && v.leaseOwner.Some? && v.leaseOwner.value != owner && v.state != STOPPED)
            && (outcome.Existing? ==> outcome.authoritative == (v.leaseOwner == Some(owner)))
            && (outcome.Rotate? ==>
                  && outcome.updated.leaseExpires == Some(now + 90) && outcome.updated.leaseOwner == Some(rotated)
                  && outcome.updated.session == rotated && outcome.updated.state == STARTING)
  {
  }

  /** A start that opened under a session rotated away since never rotates again, unless the sandbox was stopped. */
  lemma StaleStartNeverRotates(s: System, owner: Session, now: int, rotated: Session)
    requires Inv(s) && owner != s.rec.session && s.rec.leaseOwner.Some? && s.rec.state != STOPPED
    ensures !DecideStart(ViewOf(s.rec), owner, now, false, rotated).Rotate?
  {
  }

  // ------------------------------------------------------------ calls that land

  /** A call sent and delivered at once. */
  lemma SentAndDelivered(s: System, op: Op, session: Session, i: Instance)
    requires CanSend(s, op, session, i) && Guard(s.rec, Call(op, session, i, s.now))
    ensures var c := Call(op, session, i, s.now);
            var sent := s.(calls := s.calls + {c});
            Run(s, [Send(op, session, i), Deliver(c, true)]) == Applied(sent, c, true)
  {
    var c := Call(op, session, i, s.now);
    var sent := s.(calls := s.calls + {c});
    assert Next(s, Send(op, session, i)) == sent;
    assert Next(sent, Deliver(c, true)) == Applied(sent, c, true);
    RunTwo(s, Send(op, session, i), Deliver(c, true));
  }

  lemma RunTwo(s: System, first: Step, second: Step)
    ensures Run(s, [first, second]) == Next(Next(s, first), second)
  {
    assert [first, second] == [first] + ([second] + []);
    RunFirst(s, first, [second] + []);
    RunFirst(Next(s, first), second, []);
  }

  /** A container that booted in the record's session and is not ready yet. */
  predicate JustBooted(s: System, i: Instance) { i in s.containers && s.containers[i].ready == None }

  /** A READY record whose holder is gone can be claimed once its lease is over: the sandbox never locks itself. */
  lemma DeadHolderIsReplaced(s: System, i: Instance)
    requires JustBooted(s, i) && s.rec.state == READY && s.rec.initOwner == None
    requires s.rec.leaseExpires.None? || s.rec.leaseExpires.value < s.now
    ensures CanSend(s, AcquireInit, s.rec.session, i) && Guard(s.rec, Call(AcquireInit, s.rec.session, i, s.now))
  {
  }

  /** So can one whose initializer stopped beating. */
  lemma DeadInitializerIsReplaced(s: System, i: Instance)
    requires JustBooted(s, i) && s.rec.state == RESTORING
    requires s.rec.initOwner.Some? ==> s.rec.initExpires.Some? && s.rec.initExpires.value < s.now
    ensures CanSend(s, AcquireInit, s.rec.session, i) && Guard(s.rec, Call(AcquireInit, s.rec.session, i, s.now))
  {
  }

  /** The last claimant of a restoring sandbox can give it up, which leaves it in ERROR with no initializer. */
  lemma InitializerGivesUp(s: System, i: Instance)
    requires i in s.containers && s.rec.state == RESTORING && s.rec.initOwner == Some(i)
    ensures var c := Call(MarkError, s.rec.session, i, s.now);
            && CanSend(s, MarkError, s.rec.session, i) && Guard(s.rec, c)
            && Write(s.rec, c).state == ERROR && Write(s.rec, c).initOwner == None
  {
  }

  /** A warm container heals the record of a start it survived. */
  lemma ReadyContainerHeals(s: System, i: Instance)
    requires i in s.containers && s.containers[i].ready == Some(s.rec.session) && s.rec.state == STARTING
    ensures var c := Call(HealReady, s.rec.session, i, s.now);
            && CanSend(s, HealReady, s.rec.session, i) && Guard(s.rec, c) && Write(s.rec, c).state == READY
  {
  }

  /** A ready holder whose base is not behind the generation pointer. */
  predicate Serving(s: System, i: Instance)
  {
    && i in s.containers && s.containers[i].ready == Some(s.rec.session) && s.rec.holder == Some(i)
    && s.rec.state == READY
    && (s.rec.pointer.None? || s.rec.pointer.value <= s.containers[i].base)
  }

  /** Its receipt for a newer commit is sent and lands, final or not. */
  lemma ReceiptIsAccepted(s: System, i: Instance, gen: nat, final: bool, hints: Hints)
    requires Serving(s, i) && gen in s.commits && gen > s.containers[i].base
    ensures var op := Receipt(gen, s.containers[i].base, s.commits[gen], final, hints);
            CanSend(s, op, s.rec.session, i) && Guard(s.rec, Call(op, s.rec.session, i, s.now))
  {
  }

  lemma ReplayMayLand(r: Record, c: Call)
    requires Guard(r, c) && c.op.Receipt?
    ensures Guard(Write(r, c), c) && Replays(Write(r, c), c.op)
    ensures Write(Write(r, c), c) == Write(r, c).(version := r.version + 2)
  {
  }

  lemma AppliedAgain(s: System, c: Call, again: bool)
    requires c.op.Receipt? && Replays(s.rec, c.op) && Write(s.rec, c) == s.rec.(version := s.rec.version + 1)
    requires c.op.gen in s.catalog && s.catalog[c.op.gen] == c.op.digest
    requires Token(c.session, c.op.gen, c.op.digest) in s.tokens
    ensures var s' := Applied(s, c, again);
            && s'.log == s.log + [Wrote(c, true, again)] && s'.rec == s.rec.(version := s.rec.version + 1)
            && s'.catalog == s.catalog && s'.tokens == s.tokens
  {
  }

  /** Sent again after it landed, as a client does that missed the reply, it lands once more, as a replay. */
  lemma ReplayIsAccepted(s: System, c: Call, reply: bool, again: bool)
    requires c in s.calls && Guard(s.rec, c) && c.op.Receipt?
    ensures var s1 := Next(s, Deliver(c, reply));
            var s2 := Next(s1, Deliver(c, again));
            && s2.log == s1.log + [Wrote(c, true, again)]
            && s2.rec == s1.rec.(version := s1.rec.version + 1) && s2.catalog == s1.catalog && s2.tokens == s1.tokens
  {
    var s1 := Applied(s, c, reply);
    assert Next(s, Deliver(c, reply)) == s1;
    ReplayMayLand(s.rec, c);
    AppliedAgain(s1, c, again);
    assert Next(s1, Deliver(c, again)) == Applied(s1, c, again);
  }

  // ---------------------------------------------------------------- a stop lands

  /** What the stop of a record as it is puts back. */
  function StopPut(s: System, token: Token): Task
  {
    PutReady(ViewOf(s.rec), StoppedView(ViewOf(s.rec), s.now), ForStop(token, |s.log|), |s.log|)
  }

  /** The steps of a stop with the receipt of this call. */
  function StopSteps(s: System, c: Call, reply: bool): seq<Step>
    requires c.op.Receipt?
  {
    var token := Token(c.session, c.op.gen, c.op.digest);
    var a := Applied(s, c, reply);
    [ Deliver(c, reply),
      CheckStop(token),
      ReadStop(StopChecked(a.rec.version, a.rec.leaseOwner, token, |a.log|)),
      LandPut(StopPut(a, token)) ]
  }

  lemma FinalReceiptAllowsStop(s: System, c: Call, reply: bool)
    requires Guard(s.rec, c) && c.op.Receipt? && c.op.final
    ensures StopAllowed(Applied(s, c, reply), Token(c.session, c.op.gen, c.op.digest))
  {
  }

  /** Between the check and the put, a stop only adds its own tasks. */
  lemma StopIsPrepared(s: System, token: Token)
    requires StopAllowed(s, token)
    ensures var checked := StopChecked(s.rec.version, s.rec.leaseOwner, token, |s.log|);
            Next(Next(s, CheckStop(token)), ReadStop(checked))
            == s.(tasks := s.tasks + {checked} + {StopPut(s, token)})
  {
    var checked := StopChecked(s.rec.version, s.rec.leaseOwner, token, |s.log|);
    assert Next(s, CheckStop(token)) == s.(tasks := s.tasks + {checked});
  }

  /** The put lands: nothing wrote the record since it was read. */
  lemma StopPutLands(s: System, d: System, token: Token)
    requires StopPut(s, token) in d.tasks && d.rec == s.rec && d.log == s.log
    ensures var s' := Next(d, LandPut(StopPut(s, token)));
            && s'.rec.state == STOPPED && s'.rec.leaseOwner == None && s'.rec.leaseExpires == None
            && s'.rec.session == s.rec.session && s'.rec.pointer == s.rec.pointer
            && s'.log == s.log + [Stopped(token, |s.log|, |s.log|)]
  {
  }

  /**
   From every state a final receipt that lands, followed by an undisturbed stop with its token, ends in
   STOPPED with no start lease, and the history shows that receipt and that stop and nothing else.
   */
  lemma StopLands(s: System, c: Call, reply: bool)
    requires c in s.calls && Guard(s.rec, c) && c.op.Receipt? && c.op.final
    ensures var s' := Run(s, StopSteps(s, c, reply));
            && s'.rec.state == STOPPED && s'.rec.leaseOwner == None && s'.rec.leaseExpires == None
            && s'.rec.session == s.rec.session && s'.rec.pointer == Some(c.op.gen)
            && s'.log == s.log + [Wrote(c, Replays(s.rec, c.op), reply)]
                         + [Stopped(Token(c.session, c.op.gen, c.op.digest), |s.log| + 1, |s.log| + 1)]
  {
    var token, a := Token(c.session, c.op.gen, c.op.digest), Applied(s, c, reply);
    var steps := StopSteps(s, c, reply);
    assert Next(s, steps[0]) == a;
    FinalReceiptAllowsStop(s, c, reply);
    StopIsPrepared(a, token);
    StopPutLands(a, Next(Next(a, steps[1]), steps[2]), token);
    RunFour(s, steps);
  }

  function DeletionPut(s: System): Task
  {
    PutReady(ViewOf(s.rec), DeletionView(ViewOf(s.rec), s.now), ForDeletion, |s.log|)
  }

  /** A stopped sandbox can be marked for deletion. */
  lemma DeletionLands(s: System)
    requires s.rec.state == STOPPED
    ensures var s' := Run(s, [ReadDeletion, LandPut(DeletionPut(s))]);
            && s'.rec.deletion == Some("REQUESTED") && s'.rec.state == STOPPED
            && s'.log == s.log + [DeletionAsked(|s.log|)]
  {
    var read := s.(tasks := s.tasks + {DeletionPut(s)});
    assert Next(s, ReadDeletion) == read;
    DeletionPutLands(s, read);
    RunTwo(s, ReadDeletion, LandPut(DeletionPut(s)));
  }

  lemma DeletionPutLands(s: System, d: System)
    requires DeletionPut(s) in d.tasks && d.rec == s.rec && d.log == s.log
    ensures var s' := Next(d, LandPut(DeletionPut(s)));
            && s'.rec.deletion == Some("REQUESTED") && s'.rec.state == s.rec.state
            && s'.log == s.log + [DeletionAsked(|s.log|)]
  {
  }

  /** It does happen: a first start, a restore, one checkpoint, a final receipt and a stop. */
  lemma StopIsReached() returns (s: System)
    ensures Reachable(s) && s.rec.state == STOPPED && s.rec.pointer == Some(1) && s.rec.session == SECOND
    ensures s.log != [] && s.log[|s.log| - 1].Stopped? && s.log[|s.log| - 1].token == Token(SECOND, 1, "sealed")
  {
    var ready := ReadyHolder();
    var committed := ready.(commits := ready.commits[1 := "sealed"]);
    assert Next(ready, CommitObject(1, "sealed")) == committed;
    ReachableNext(ready, CommitObject(1, "sealed"));
    var op := Receipt(1, 0, "sealed", true, Hints(None, None));
    ReceiptIsAccepted(committed, A, 1, true, Hints(None, None));
    var c := Call(op, SECOND, A, committed.now);
    var sent := committed.(calls := committed.calls + {c});
    assert Next(committed, Send(op, SECOND, A)) == sent;
    ReachableNext(committed, Send(op, SECOND, A));
    StopLands(sent, c, true);
    s := Run(sent, StopSteps(sent, c, true));
    ReachableRun(sent, StopSteps(sent, c, true));
  }

  lemma {:induction false} ReachableRun(s: System, steps: seq<Step>)
    requires Reachable(s)
    ensures Reachable(Run(s, steps))
    decreases |steps|
  {
    if steps != [] {
      ReachableNext(s, steps[0]);
      ReachableRun(Next(s, steps[0]), steps[1..]);
    }
  }

  /** A has restored and reported ready. */
  lemma ReadyHolder() returns (s: System)
    ensures Reachable(s) && Serving(s, A) && s.rec.session == SECOND && s.rec.pointer == None
    ensures s.containers[A].base == 0 && s.commits == map[]
  {
    var about, call := AboutToBeReady();
    s := Applied(about, call, true);
    assert Next(about, Deliver(call, true)) == s;
    ReachableNext(about, Deliver(call, true));
  }
}
