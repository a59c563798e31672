/**
 The one DynamoDB item per sandbox and everything that writes it.

 The persistence broker changes it with server-side conditional updates
 (`Guard` is the ConditionExpression, `Write` the UpdateExpression). The control
 plane reads it into a `View`, decides, and puts the whole item back under a
 compare-and-swap on the version. Times are whole seconds.
 */
module SandboxRecord {
  import opened Base

  datatype Session = Session(id: nat)
  datatype Instance = Instance(id: nat)
  type Digest = string

  datatype LifeState =
    | STOPPED | STARTING | RESTORING | READY | BUSY | CHECKPOINTING | STOPPING | ERROR

  const INIT_LEASE := 90
  const START_LEASE := 90
  const TAKEOVER_IDLE := 60
  const START_GRACE := 300

  datatype Record = Record(
    session: Session,
    state: LifeState,
    version: nat,
    leaseOwner: Option<Session>,
    leaseExpires: Option<int>,
    pointer: Option<nat>,
    pointerDigest: Option<Digest>,
    initOwner: Option<Instance>,
    initExpires: Option<int>,
    holder: Option<Instance>,
    lastServed: Option<int>,
    nextDueAt: Option<nat>,
    nextDueJob: Option<string>,
    restoreSeconds: Option<nat>,
    wakeSubject: Option<string>,
    restoreProgress: Option<string>,
    lastRestore: Option<string>,
    deletion: Option<string>,
    updatedAt: int)

  // ---------------------------------------------------------------- broker

  /** The wake hints a receipt may publish. */
  datatype Hints = Hints(due: Option<(nat, string)>, restoreSeconds: Option<nat>)

  datatype Op =
    | AcquireInit
    | HeartbeatInit(progress: Option<string>)
    | HeartbeatLease(served: int)
    | HealReady
    | MarkReady(outcome: string)
    | MarkError
    | Receipt(gen: nat, base: nat, digest: Digest, final: bool, hints: Hints)

  /** One broker invocation: who asks, under which session, and the clock it read. */
  datatype Call = Call(op: Op, session: Session, instance: Instance, at: int)

  predicate Live(state: LifeState)
  {
    state != STOPPED && state != ERROR
  }

  /** `_authorize`: the record names the caller's session and is in use. */
  predicate Authorized(r: Record, session: Session, now: int)
  {
    && r.session == session
    && (Live(r.state) || (r.initExpires.Some? && r.initExpires.value > now))
  }

  /** The argument checks that raise before any write is attempted. */
  predicate WellFormedOp(op: Op)
  {
    match op
    case HeartbeatLease(served) => served > 0
    case Receipt(gen, base, _, _, _) => gen > 0 && base < gen
    case _ => true
  }

  /** Another instance holds a READY record but has served nobody for a minute. */
  predicate HolderIdle(r: Record, c: Call)
  {
    && r.holder.Some? && r.holder.value != c.instance
    && r.lastServed.Some? && r.lastServed.value < c.at - TAKEOVER_IDLE
  }

  predicate Claimable(r: Record, c: Call)
  {
    || r.state == STARTING
    || r.state == RESTORING
    || (r.state == READY
        && (r.leaseExpires.None? || r.leaseExpires.value < c.at || HolderIdle(r, c)))
  }

  predicate InitFree(r: Record, c: Call)
  {
    || r.initOwner.None?
    || r.initOwner.value == c.instance
    || (r.initExpires.Some? && r.initExpires.value < c.at)
  }

  predicate HeldBy(r: Record, instance: Instance)
  {
    r.holder.None? || r.holder.value == instance
  }

  /** The receipt is an exact repeat of the last one accepted. */
  predicate Replays(r: Record, op: Op)
    requires op.Receipt?
  {
    r.pointer == Some(op.gen) && r.pointerDigest == Some(op.digest)
  }

  predicate ReceiptState(state: LifeState, final: bool)
  {
    if final then state in {READY, CHECKPOINTING, STOPPING} else state in {READY, BUSY, CHECKPOINTING}
  }

  /** The condition under which DynamoDB applies a call. */
  predicate Guard(r: Record, c: Call)
  {
    match c.op
    case AcquireInit => r.session == c.session && Claimable(r, c) && InitFree(r, c)
    case HeartbeatInit(_) => r.initOwner == Some(c.instance)
    case HeartbeatLease(_) => r.leaseOwner == Some(c.session) && HeldBy(r, c.instance)
    case HealReady => r.session == c.session && r.state == STARTING
    case MarkReady(_) => r.session == c.session && r.initOwner == Some(c.instance)
    case MarkError => r.session == c.session && r.initOwner == Some(c.instance)
    case Receipt(gen, base, digest, final, _) =>
      && r.session == c.session
      && HeldBy(r, c.instance)
      && ReceiptState(r.state, final)
      && (r.pointer.None? || r.pointer.value <= base || Replays(r, c.op))
  }

  function Min(a: int, b: int): int { if a < b then a else b }

  function Publish(r: Record, hints: Hints): Record
  {
    var scheduled := if hints.due.Some?
                     then r.(nextDueAt := Some(hints.due.value.0), nextDueJob := Some(hints.due.value.1))
                     else r;
    if hints.restoreSeconds.Some? then scheduled.(restoreSeconds := hints.restoreSeconds) else scheduled
  }

  /** The item after an applied call. */
  function Write(r: Record, c: Call): Record
  {
    match c.op
    case AcquireInit =>
      r.(state := RESTORING, initOwner := Some(c.instance), initExpires := Some(c.at + INIT_LEASE),
         holder := Some(c.instance), restoreProgress := None, updatedAt := c.at, version := r.version + 1)
    case HeartbeatInit(progress) =>
      r.(initExpires := Some(c.at + INIT_LEASE), updatedAt := c.at,
         restoreProgress := if progress.Some? then progress else r.restoreProgress)
    case HeartbeatLease(served) =>
      r.(leaseExpires := Some(c.at + START_LEASE), lastServed := Some(Min(served, c.at)), updatedAt := c.at)
    case HealReady =>
      r.(state := READY, updatedAt := c.at, version := r.version + 1)
    case MarkReady(outcome) =>
      r.(state := READY, lastRestore := Some(outcome), leaseOwner := Some(c.session),
         leaseExpires := Some(c.at + START_LEASE), holder := Some(c.instance), lastServed := Some(c.at),
         initOwner := None, initExpires := None, updatedAt := c.at, version := r.version + 1)
    case MarkError =>
      r.(state := ERROR, initOwner := None, initExpires := None, updatedAt := c.at, version := r.version + 1)
    case Receipt(gen, _, digest, final, hints) =>
      Publish(r, hints).(state := if final then STOPPING else r.state, pointer := Some(gen),
                         pointerDigest := Some(digest), updatedAt := c.at, version := r.version + 1)
  }

  // --------------------------------------------------------- control plane

  /** What the control plane reads: the item without `initOwner` and the checkpoint digest. */
  datatype View = View(
    session: Session,
    state: LifeState,
    version: nat,
    leaseOwner: Option<Session>,
    leaseExpires: Option<int>,
    pointer: Option<nat>,
    initExpires: Option<int>,
    holder: Option<Instance>,
    lastServed: Option<int>,
    nextDueAt: Option<nat>,
    nextDueJob: Option<string>,
    restoreSeconds: Option<nat>,
    wakeSubject: Option<string>,
    restoreProgress: Option<string>,
    lastRestore: Option<string>,
    deletion: Option<string>,
    updatedAt: int)

  function ViewOf(r: Record): View
  {
    View(r.session, r.state, r.version, r.leaseOwner, r.leaseExpires, r.pointer, r.initExpires,
         r.holder, r.lastServed, r.nextDueAt, r.nextDueJob, r.restoreSeconds, r.wakeSubject,
         r.restoreProgress, r.lastRestore, r.deletion, r.updatedAt)
  }

  function ItemOf(v: View): Record
  {
    Record(v.session, v.state, v.version, v.leaseOwner, v.leaseExpires, v.pointer, None, None,
           v.initExpires, v.holder, v.lastServed, v.nextDueAt, v.nextDueJob, v.restoreSeconds,
           v.wakeSubject, v.restoreProgress, v.lastRestore, v.deletion, v.updatedAt)
  }

  datatype StartOutcome = Existing(authoritative: bool) | LeaseConflict | Rotate(updated: View)

  /** `acquire_start`, after the read: leave the record alone, refuse, or rotate the session. */
  function DecideStart(v: View, owner: Session, now: int, confirmedInactive: bool, rotated: Session): StartOutcome
  {
    if v.leaseExpires.Some? && v.leaseExpires.value > now then
      Existing(v.leaseOwner == Some(owner))
    else if v.initExpires.Some? && v.initExpires.value > now then
      Existing(v.leaseOwner == Some(owner))
    else if v.leaseOwner.Some? && v.leaseOwner.value != owner && v.state != STOPPED && !confirmedInactive then
      LeaseConflict
    else if v.state == STARTING && v.updatedAt > now - START_GRACE && !confirmedInactive then
      Existing(v.leaseOwner == Some(owner))
    else
      Rotate(v.(state := STARTING, version := v.version + 1, session := rotated, leaseOwner := Some(rotated),
                leaseExpires := Some(now + START_LEASE), updatedAt := now))
  }

  /** `transition` to STOPPED. */
  function StoppedView(v: View, now: int): View
  {
    v.(state := STOPPED, version := v.version + 1, leaseOwner := None, leaseExpires := None, updatedAt := now)
  }

  /** `request_deletion`. */
  function DeletionView(v: View, now: int): View
  {
    v.(version := v.version + 1, deletion := Some("REQUESTED"), updatedAt := now)
  }
}
