/**
 Who may move the generation pointer: what each container restored and had
 accepted, and that a receipt is accepted only from one that has seen everything
 accepted before.
 */
module SandboxLineage {
  import opened Base
  import opened SandboxRecord
  import opened SandboxSystem
  import opened SandboxInvariants

  function Larger(a: nat, b: nat): nat { if a < b then b else a }

  /** The newest generation in a container's own history: restored, tried to restore, or accepted and answered. */
  function Newest(log: seq<Event>, i: Instance): nat
    decreases |log|
  {
    if log == [] then 0
    else
      var e, before := log[|log| - 1], Newest(log[..|log| - 1], i);
      if e.Restored? && e.instance == i then Larger(before, e.newest)
      else if IsReceipt(e) && e.call.instance == i && e.reply then Larger(before, e.call.op.gen)
      else before
  }

  /**
   Every accepted receipt either repeats the newest one accepted, or was sent on top of the
   newest generation its own container knew.
   */
  predicate OnOwnNewest(log: seq<Event>)
  {
    forall k | 0 <= k < |log| && IsReceipt(log[k]) ::
      && log[k].call.op.base < log[k].call.op.gen
      && if log[k].replay then LastAccepted(log[..k]) == Some(log[k].call.op.gen)
         else log[k].call.op.base == Newest(log[..k], log[k].call.instance)
  }

  // ------------------------------------------------------------- invariant

  /** A container's base is the newest generation in its history, and durable. */
  ghost predicate BasesAreNewest(s: System)
  {
    && (forall i :: Newest(s.log, i) == if i in s.containers then s.containers[i].base else 0)
    && (forall i | i in s.containers :: s.containers[i].base == 0 || s.containers[i].base in s.commits)
  }

  /** A receipt in flight names its container's base, or one the pointer has left behind. */
  predicate Sent(s: System, c: Call)
  {
    && c.instance in s.containers
    && (c.op.Receipt? ==>
          var base := s.containers[c.instance].base;
          && s.containers[c.instance].ready.Some? && c.op.base <= base
          && (c.op.base == base || (s.rec.pointer.Some? && base <= s.rec.pointer.value)))
  }

  predicate AllSent(s: System) { forall c | c in s.calls :: Sent(s, c) }

  ghost predicate Lineage(s: System)
  {
    BasesAreNewest(s) && AllSent(s) && OnOwnNewest(s.log)
  }

  lemma NewestAfterWrite(log: seq<Event>, e: Event, i: Instance)
    requires e.Wrote?
    ensures Newest(log + [e], i)
            == if IsReceipt(e) && e.call.instance == i && e.reply then Larger(Newest(log, i), e.call.op.gen)
               else Newest(log, i)
  {
    assert (log + [e])[..|log|] == log;
  }

  /** An accepted receipt is no older than its container's base. */
  lemma AcceptedIsNoOlder(s: System, c: Call)
    requires Sent(s, c) && Guard(s.rec, c) && WellFormedOp(c.op) && c.op.Receipt?
    ensures c.op.gen >= s.containers[c.instance].base
  {
  }

  /** The base a container has after an applied call. */
  lemma BaseAfterWrite(s: System, c: Call, reply: bool, i: Instance)
    requires c.instance in s.containers
    ensures var s' := Applied(s, c, reply);
            && s'.containers.Keys == s.containers.Keys
            && (i in s.containers ==>
                  s'.containers[i].base
                  == if c.op.Receipt? && c.instance == i && reply then c.op.gen else s.containers[i].base)
  {
  }

  /** What an applied call adds to a container's history is what it adds to its base. */
  lemma DeliverBase(s: System, c: Call, reply: bool, i: Instance)
    requires Sent(s, c) && Guard(s.rec, c) && WellFormedOp(c.op)
    requires Newest(s.log, i) == if i in s.containers then s.containers[i].base else 0
    ensures var s' := Applied(s, c, reply);
            Newest(s'.log, i) == if i in s'.containers then s'.containers[i].base else 0
  {
    NewestAfterWrite(s.log, Wrote(c, c.op.Receipt? && Replays(s.rec, c.op), reply), i);
    BaseAfterWrite(s, c, reply, i);
    if c.op.Receipt? {
      AcceptedIsNoOlder(s, c);
    }
  }

  lemma DeliverBases(s: System, c: Call, reply: bool)
    requires BasesAreNewest(s) && Sent(s, c) && Guard(s.rec, c) && WellFormedOp(c.op) && NamesCommit(s.commits, c.op)
    ensures BasesAreNewest(Applied(s, c, reply))
  {
    forall i
      ensures Newest(Applied(s, c, reply).log, i)
              == if i in Applied(s, c, reply).containers then Applied(s, c, reply).containers[i].base else 0
    {
      DeliverBase(s, c, reply, i);
    }
  }

  lemma DeliverSent(s: System, c: Call, reply: bool)
    requires AllSent(s) && c in s.calls && Guard(s.rec, c) && WellFormedOp(c.op)
    ensures AllSent(Applied(s, c, reply))
  {
    assert Sent(s, c);
    var s' := Applied(s, c, reply);
    forall d | d in s'.calls
      ensures Sent(s', d)
    {
      assert Sent(s, d);
    }
  }

  lemma DeliverOnNewest(s: System, c: Call, reply: bool)
    requires BasesAreNewest(s) && FollowsLog(s) && Sent(s, c) && Guard(s.rec, c) && WellFormedOp(c.op)
    requires OnOwnNewest(s.log)
    ensures OnOwnNewest(Applied(s, c, reply).log)
  {
    Appended(s.log, Wrote(c, c.op.Receipt? && Replays(s.rec, c.op), reply));
    assert Newest(s.log, c.instance) == s.containers[c.instance].base;
  }

  lemma DeliverLineage(s: System, c: Call, reply: bool)
    requires Lineage(s) && FollowsLog(s) && CallsOk(s) && c in s.calls && Guard(s.rec, c)
    ensures Lineage(Applied(s, c, reply))
  {
    assert Sent(s, c);
    DeliverBases(s, c, reply);
    DeliverSent(s, c, reply);
    DeliverOnNewest(s, c, reply);
  }

  /** An event that is no receipt and no restore leaves every history as it was. */
  lemma OtherEvents(log: seq<Event>, e: Event)
    requires OnOwnNewest(log) && !IsReceipt(e)
    ensures OnOwnNewest(log + [e])
    ensures !e.Restored? ==> forall i :: Newest(log + [e], i) == Newest(log, i)
    ensures e.Restored? ==> forall i ::
              Newest(log + [e], i) == if i == e.instance then Larger(Newest(log, i), e.newest) else Newest(log, i)
  {
    Appended(log, e);
  }

  lemma RestoreLineage(s: System, i: Instance)
    requires Lineage(s) && i in s.containers && s.containers[i].ready.None?
    ensures Lineage(RestoredBy(s, i, MaxOf(s.commits.Keys)))
  {
    var newest := MaxOf(s.commits.Keys);
    OtherEvents(s.log, Restored(i, newest));
    var s' := RestoredBy(s, i, newest);
    assert Newest(s.log, i) == s.containers[i].base;
    forall c | c in s'.calls
      ensures Sent(s', c)
    {
      assert Sent(s, c);
    }
  }

  lemma LandLineage(s: System, put: Task)
    requires Lineage(s) && put.PutReady? && TaskOk(s, put) && put.read.version == s.rec.version
    ensures Lineage(Landed(s, put))
  {
    LandRecord(s, put);
    OtherEvents(s.log, EventOf(put));
    forall c | c in s.calls
      ensures Sent(Landed(s, put), c)
    {
      assert Sent(s, c);
    }
  }

  lemma EnrolLineage(s: System, sealed: string)
    requires Lineage(s)
    ensures Lineage(EnrolledAs(s, sealed))
  {
    OtherEvents(s.log, Enrolled(sealed));
    forall c | c in s.calls
      ensures Sent(EnrolledAs(s, sealed), c)
    {
      assert Sent(s, c);
    }
  }

  lemma BootLineage(s: System, i: Instance)
    requires Lineage(s) && i !in s.containers
    ensures Lineage(s.(containers := s.containers[i := Container(None, false, 0)]))
  {
    var s' := s.(containers := s.containers[i := Container(None, false, 0)]);
    forall c | c in s'.calls
      ensures Sent(s', c)
    {
      assert Sent(s, c);
    }
  }

  lemma SendLineage(s: System, op: Op, session: Session, instance: Instance)
    requires Lineage(s) && CanSend(s, op, session, instance)
    ensures Lineage(s.(calls := s.calls + {Call(op, session, instance, s.now)}))
  {
    var s' := s.(calls := s.calls + {Call(op, session, instance, s.now)});
    forall c | c in s'.calls
      ensures Sent(s', c)
    {
      if c in s.calls { assert Sent(s, c); }
    }
  }

  /** Steps that touch neither containers, calls, commits, log nor the pointer. */
  lemma OtherLineage(s: System, s': System)
    requires Lineage(s) && s'.containers == s.containers && s'.calls == s.calls && s'.log == s.log
    requires s'.rec == s.rec && forall g | g in s.commits :: g in s'.commits
    ensures Lineage(s')
  {
    forall c | c in s'.calls
      ensures Sent(s', c)
    {
      assert Sent(s, c);
    }
  }

  lemma DeliverStep(s: System, c: Call, reply: bool)
    requires Lineage(s) && FollowsLog(s) && CallsOk(s)
    ensures Lineage(Next(s, Deliver(c, reply)))
  {
    if c in s.calls && Guard(s.rec, c) { DeliverLineage(s, c, reply); }
  }

  lemma LandStep(s: System, put: Task)
    requires Lineage(s) && TasksOk(s)
    ensures Lineage(Next(s, LandPut(put)))
  {
    if put in s.tasks && put.PutReady? && put.read.version == s.rec.version {
      assert TaskOk(s, put);
      LandLineage(s, put);
    }
  }

  lemma EnrolStep(s: System, sealed: string)
    requires Lineage(s)
    ensures Lineage(Next(s, EnrolWake(sealed)))
  {
    EnrolLineage(s, sealed);
  }

  lemma RestoreStep(s: System, i: Instance)
    requires Lineage(s)
    ensures Lineage(Next(s, Restore(i)))
  {
    if i in s.containers && s.containers[i].ready.None? { RestoreLineage(s, i); }
  }

  lemma BootStep(s: System, i: Instance)
    requires Lineage(s)
    ensures Lineage(Next(s, Boot(i)))
  {
    if i !in s.containers { BootLineage(s, i); }
  }

  lemma SendStep(s: System, op: Op, session: Session, i: Instance)
    requires Lineage(s)
    ensures Lineage(Next(s, Send(op, session, i)))
  {
    if CanSend(s, op, session, i) { SendLineage(s, op, session, i); }
  }

  /** Steps that touch neither the record nor the containers, the calls and the log. */
  predicate Quiet(step: Step)
  {
    !step.Deliver? && !step.LandPut? && !step.EnrolWake? && !step.Restore? && !step.Boot? && !step.Send?
  }

  lemma QuietFrame(s: System, step: Step)
    requires Quiet(step)
    ensures var s' := Next(s, step);
            && s'.containers == s.containers && s'.calls == s.calls && s'.log == s.log && s'.rec == s.rec
            && forall g | g in s.commits :: g in s'.commits
  {
    match step
    case CommitObject(_, _) =>
    case _ =>
  }

  lemma QuietStep(s: System, step: Step)
    requires Lineage(s) && Quiet(step)
    ensures Lineage(Next(s, step))
  {
    QuietFrame(s, step);
    OtherLineage(s, Next(s, step));
  }

  lemma LineageNext(s: System, step: Step)
    requires Lineage(s) && FollowsLog(s) && CallsOk(s) && TasksOk(s)
    ensures Lineage(Next(s, step))
  {
    match step
    case Deliver(c, reply) => DeliverStep(s, c, reply);
    case LandPut(put) => LandStep(s, put);
    case EnrolWake(sealed) => EnrolStep(s, sealed);
    case Restore(i) => RestoreStep(s, i);
    case Boot(i) => BootStep(s, i);
    case Send(op, session, i) => SendStep(s, op, session, i);
    case _ => QuietStep(s, step);
  }

  lemma {:induction false} LineageRun(s: System, steps: seq<Step>)
    requires Inv(s) && Lineage(s)
    ensures Lineage(Run(s, steps))
    decreases |steps|
  {
    if steps != [] {
      LineageNext(s, steps[0]);
      InvNext(s, steps[0]);
      LineageRun(Next(s, steps[0]), steps[1..]);
    }
  }

  lemma ReachableLineage(s: System)
    requires Reachable(s)
    ensures Lineage(s)
  {
    var s0: System, steps: seq<Step> :| Created(s0) && Run(s0, steps) == s;
    CreatedInv(s0);
    LineageRun(s0, steps);
  }

  // --------------------------------------------------------------- theorems

  /** A receipt can be sent only on top of the newest generation in its container's own history. */
  lemma SentOnOwnNewest(s: System, op: Op, session: Session, instance: Instance)
    requires Reachable(s) && op.Receipt? && CanSend(s, op, session, instance)
    ensures op.base == Newest(s.log, instance)
  {
    ReachableLineage(s);
  }

  /**
   One chain: apart from exact replays, a receipt is accepted only if every generation
   accepted before is at most the newest one its own container had restored, tried to
   restore or had accepted by then, and its base is exactly that one.
   */
  lemma AcceptedReceiptsFormOneChain(s: System, k: nat)
    requires Reachable(s) && k < |s.log| && IsReceipt(s.log[k]) && !s.log[k].replay
    ensures var newest := Newest(s.log[..k], s.log[k].call.instance);
            && s.log[k].call.op.base == newest < s.log[k].call.op.gen
            && forall j | 0 <= j < k && IsReceipt(s.log[j]) :: s.log[j].call.op.gen <= newest
  {
    ReachableLineage(s);
    ReachableInv(s);
  }

  /** A replay repeats the newest generation accepted so far. */
  lemma ReplaysRepeatTheNewest(s: System, k: nat)
    requires Reachable(s) && k < |s.log| && IsReceipt(s.log[k]) && s.log[k].replay
    ensures forall j | 0 <= j < k && IsReceipt(s.log[j]) :: s.log[j].call.op.gen <= s.log[k].call.op.gen
    ensures LastAccepted(s.log[..k]) == Some(s.log[k].call.op.gen)
  {
    ReachableLineage(s);
    ReachableInv(s);
  }
}
