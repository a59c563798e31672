/**
 The waker's decision on one tick: `_wake_lead`, `_wake_plan` and `_recovery`,
 and what they guarantee over all ticks.
 */
module Waker {
  import opened Base

  const CATCH_UP_GRACE := 1800
  const LEGACY_WAKE := 6 * 3600
  const STALE_HOLD := 1200

  /** The fields of the sandbox record a tick reads; times in epoch seconds. */
  datatype WakeRecord = WakeRecord(
    state: string, updated: Option<int>, lease: Option<int>, initUntil: Option<int>,
    due: Option<int>, restoreSeconds: Option<int>)

  /** What the lookup of the record gives. */
  datatype Lookup = NoTable | Unreadable | Missing | Found(record: WakeRecord)

  datatype Reason =
    | NoRecordToConsult | RecordUnreadable | NoSuchSandbox | InUse
    | PeriodicWake | PeriodicNotDue | NothingScheduled | NotYet
    | AlreadyHandled | TooOld | Stranded | Due

  datatype Plan = Plan(wake: bool, reason: Reason)

  /** One and a half times, truncated toward zero. */
  function OneAndAHalf(r: int): int
  {
    if r >= 0 then 3 * r / 2 else -(-3 * r / 2)
  }

  function WakeLead(restoreSeconds: Option<int>): int
  {
    if restoreSeconds.None? then 180
    else
      var padded := OneAndAHalf(restoreSeconds.value) + 30;
      var capped := if padded < 600 then padded else 600;
      if capped > 90 then capped else 90
  }

  /** The lead is between 90 and 600 seconds and covers the restore exactly up to ten minutes. */
  lemma LeadCoversRestore(r: int)
    ensures WakeLead(None) == 180 && 90 <= WakeLead(Some(r)) <= 600
    ensures WakeLead(Some(r)) >= r <==> r <= 600
    ensures 40 <= r <= 380 ==> 0 <= 3 * r - 2 * (WakeLead(Some(r)) - 30) <= 1
    ensures forall s | s >= r :: WakeLead(Some(s)) >= WakeLead(Some(r))
  {
  }

  // ---------------------------------------------------------- what should happen

  /** Somebody uses the sandbox or is starting it. */
  predicate Held(r: WakeRecord, now: int)
  {
    && r.state != "STOPPED"
    && (|| (r.initUntil.Some? && r.initUntil.value > now)
        || (r.lease.Some? && r.lease.value > now)
        || (r.lease.None? && r.updated.Some? && now - r.updated.value < STALE_HOLD))
  }

  /** Nothing has written the record for six hours. */
  predicate Quiet(r: WakeRecord, now: int)
  {
    r.updated.Some? ==> now - r.updated.value >= LEGACY_WAKE
  }

  /** The published occurrence is inside its window: from the lead before it to half an hour after. */
  predicate InWindow(r: WakeRecord, now: int)
  {
    r.due.Some? && r.due.value != 0 && r.due.value - WakeLead(r.restoreSeconds) <= now <= r.due.value + CATCH_UP_GRACE
  }

  predicate Handled(r: WakeRecord)
  {
    r.due.Some? && r.updated.Some? && r.updated.value >= r.due.value
  }

  /** The published occurrence is over, and neither it nor anything else has touched the record for six hours. */
  predicate StrandedAt(r: WakeRecord, now: int)
  {
    r.due.Some? && r.due.value != 0 && now - r.due.value > LEGACY_WAKE && Quiet(r, now)
  }

  predicate ShouldWake(r: WakeRecord, now: int)
  {
    && !Held(r, now)
    && (|| (r.due.None? && Quiet(r, now))
        || (InWindow(r, now) && !Handled(r))
        || StrandedAt(r, now))
  }

  /** A sandbox that is not stopped is left alone while it is starting, under a live lease, or just written. */
  lemma LiveIsLeftAlone(r: WakeRecord, now: int)
    requires r.state != "STOPPED"
    requires || (r.initUntil.Some? && r.initUntil.value > now)
             || (r.lease.Some? && r.lease.value > now)
             || (r.lease.None? && r.updated.Some? && now < r.updated.value + 1200)
    ensures !ShouldWake(r, now)
  {
  }

  /**
   A record that nothing holds and that was written less than six hours ago is woken exactly from its lead
   before the occurrence to half an hour after it, unless it was written at or after the occurrence.
   */
  lemma FreeRecordWakesInItsWindow(r: WakeRecord, now: int)
    requires r.state == "STOPPED" || (r.lease.Some? && r.lease.value <= now)
    requires r.state == "STOPPED" || r.initUntil.None? || r.initUntil.value <= now
    requires r.updated.Some? && now < r.updated.value + 6 * 3600
    ensures ShouldWake(r, now) <==>
              && r.due.Some? && r.due.value != 0 && r.updated.value < r.due.value
              && r.due.value - WakeLead(r.restoreSeconds) <= now <= r.due.value + 1800
  {
  }

  // ------------------------------------------------------------- what the code does

  /** `_recovery`. */
  function Recovery(now: int, due: int, heldFor: Option<int>, otherwise: Reason): Plan
  {
    if now - due > LEGACY_WAKE && (heldFor.None? || heldFor.value >= LEGACY_WAKE)
    then Plan(true, Stranded) else Plan(false, otherwise)
  }

  /** `_wake_plan`: the chain of branches wakes exactly when it should. */
  method WakePlan(lookup: Lookup, now: int) returns (plan: Plan)
    ensures lookup.Found? ==> plan.wake == ShouldWake(lookup.record, now)
    ensures !lookup.Found? ==> plan.wake == !lookup.Missing?
    ensures plan.reason == InUse <==> lookup.Found? && Held(lookup.record, now)
    ensures plan.reason == Due <==>
              lookup.Found? && !Held(lookup.record, now) && InWindow(lookup.record, now) && !Handled(lookup.record)
    ensures plan.reason == Stranded ==> lookup.Found? && StrandedAt(lookup.record, now)
  {
    match lookup
    case NoTable => return Plan(true, NoRecordToConsult);
    case Unreadable => return Plan(true, RecordUnreadable);
    case Missing => return Plan(false, NoSuchSandbox);
    case Found(r) =>
      var heldFor := if r.updated.Some? then Some(now - r.updated.value) else None;
      var held;
      if r.state == "STOPPED" {
        held := false;
      } else if r.initUntil.Some? && r.initUntil.value > now {
        held := true;
      } else if r.lease.Some? {
        held := r.lease.value > now;
      } else {
        held := heldFor.Some? && heldFor.value < STALE_HOLD;
      }
      if held {
        return Plan(false, InUse);
      }
      if r.due.None? {
        var idle := heldFor.None? || heldFor.value >= LEGACY_WAKE;
        return if idle then Plan(true, PeriodicWake) else Plan(false, PeriodicNotDue);
      }
      var due := r.due.value;
      var lead := WakeLead(r.restoreSeconds);
      if due == 0 {
        plan := Plan(false, NothingScheduled);
      } else if now < due - lead {
        plan := Plan(false, NotYet);
      } else if r.updated.Some? && r.updated.value >= due {
        plan := Recovery(now, due, heldFor, AlreadyHandled);
      } else if now - due > CATCH_UP_GRACE {
        plan := Recovery(now, due, heldFor, TooOld);
      } else {
        plan := Plan(true, Due);
      }
  }

  // ---------------------------------------------------------------- over all ticks

  function Later(a: int, b: Option<int>): int { if b.Some? && b.value > a then b.value else a }

  /** The last thing that can still put off a wake. */
  function LastSign(r: WakeRecord): int
    requires r.due.Some?
  {
    Later(Later(Later(r.due.value, r.updated), r.lease), r.initUntil)
  }

  /**
   Schedules never strand: once nobody writes the record, every tick more than six hours
   after the last sign wakes.
   */
  lemma NeverStrands(r: WakeRecord, now: int)
    requires r.due.Some? && r.due.value != 0 && now > LastSign(r) + LEGACY_WAKE
    ensures ShouldWake(r, now)
  {
    assert !Held(r, now);
    assert StrandedAt(r, now);
  }

  /** In the window an unheld tick wakes exactly when the record was not updated at or after the due time. */
  lemma WindowWakes(r: WakeRecord, now: int)
    requires InWindow(r, now) && !Held(r, now)
    ensures ShouldWake(r, now) <==> !Handled(r)
  {
  }

  /**
   Each occurrence is decided once: after the record is touched at or past the due time, six
   hours pass before another wake.
   */
  lemma HandledOnce(r: WakeRecord, now: int)
    requires Handled(r) && now < r.updated.value + LEGACY_WAKE
    ensures !ShouldWake(r, now)
  {
  }

  /** Ticks no further apart than the shortest window cannot step over an occurrence nobody has handled. */
  lemma {:induction false} NoOccurrenceIsSteppedOver(r: WakeRecord, ticks: nat -> int, n: nat)
    requires r.due.Some? && r.due.value != 0 && !Handled(r)
    requires forall i: nat :: ticks(i) <= ticks(i + 1) <= ticks(i) + 90 + CATCH_UP_GRACE
    requires ticks(0) < r.due.value - WakeLead(r.restoreSeconds) <= ticks(n)
    requires forall i: nat | InWindow(r, ticks(i)) :: !Held(r, ticks(i))
    ensures exists i: nat :: i <= n && InWindow(r, ticks(i)) && ShouldWake(r, ticks(i))
    decreases n
  {
    if r.restoreSeconds.Some? { LeadCoversRestore(r.restoreSeconds.value); }
    if ticks(n - 1) < r.due.value - WakeLead(r.restoreSeconds) {
      assert ticks(n - 1 + 1) <= ticks(n - 1) + 90 + CATCH_UP_GRACE;
      assert InWindow(r, ticks(n)) && ShouldWake(r, ticks(n));
    } else {
      NoOccurrenceIsSteppedOver(r, ticks, n - 1);
    }
  }

  // ------------------------------------------------------- wakes that keep failing

  /** What a wake that dies before its receipt may leave: the schedule as it was, a touched record. */
  type Aftermath = (WakeRecord, int) -> WakeRecord

  /** Its last write, and the leases that write left, are over `life` seconds after the wake. */
  ghost predicate DiesWithin(after: Aftermath, life: nat)
  {
    forall r, t :: var r' := after(r, t);
      && r'.due == r.due && r'.updated.Some? && t <= r'.updated.value <= t + life
      && Later(t, r'.lease) <= t + life && Later(t, r'.initUntil) <= t + life
  }

  datatype Night = Night(record: WakeRecord, wakes: seq<int>)

  /** The record and the wakes after the first `n` ticks, when every wake fails. */
  ghost function AfterTicks(after: Aftermath, r: WakeRecord, ticks: nat -> int, n: nat): Night
  {
    if n == 0 then Night(r, [])
    else
      var before := AfterTicks(after, r, ticks, n - 1);
      var now := ticks(n - 1);
      if ShouldWake(before.record, now) then Night(after(before.record, now), before.wakes + [now]) else before
  }

  /** The record's last sign comes from the start or from the last wake. */
  ghost predicate Dated(r: WakeRecord, night: Night, life: nat)
    requires r.due.Some?
  {
    && night.record.due == r.due
    && (night.wakes == [] ==> night.record == r)
    && (night.wakes != [] ==>
          var last := night.wakes[|night.wakes| - 1];
          && night.record.updated.Some? && night.record.updated.value >= last
          && LastSign(night.record) <= Later(r.due.value, Some(last + life)))
  }

  lemma {:induction false} NightIsDated(after: Aftermath, life: nat, r: WakeRecord, ticks: nat -> int, n: nat)
    requires r.due.Some? && DiesWithin(after, life)
    ensures Dated(r, AfterTicks(after, r, ticks, n), life)
    decreases n
  {
    if n > 0 {
      NightIsDated(after, life, r, ticks, n - 1);
    }
  }

  /** However often wakes fail, every late enough tick finds a wake at most six hours and one wake's life behind it. */
  lemma WakesNeverCease(after: Aftermath, life: nat, r: WakeRecord, ticks: nat -> int, n: nat)
    requires r.due.Some? && r.due.value != 0 && DiesWithin(after, life)
    requires ticks(n) > LastSign(r) + LEGACY_WAKE
    ensures var wakes := AfterTicks(after, r, ticks, n + 1).wakes;
            wakes != [] && wakes[|wakes| - 1] >= ticks(n) - LEGACY_WAKE - life
  {
    NightIsDated(after, life, r, ticks, n);
    var before := AfterTicks(after, r, ticks, n);
    if ticks(n) > LastSign(before.record) + LEGACY_WAKE {
      NeverStrands(before.record, ticks(n));
    }
  }

  predicate Spaced(wakes: seq<int>, since: int)
  {
    forall j, k | 0 <= j < k < |wakes| && wakes[j] >= since :: wakes[k] - wakes[j] >= LEGACY_WAKE
  }

  /** And once the due time has passed, no two of them are less than six hours apart. */
  lemma {:induction false} FailedWakesAreSpaced(after: Aftermath, life: nat, r: WakeRecord, ticks: nat -> int, n: nat)
    requires r.due.Some? && DiesWithin(after, life)
    ensures Spaced(AfterTicks(after, r, ticks, n).wakes, r.due.value)
    decreases n
  {
    if n > 0 {
      FailedWakesAreSpaced(after, life, r, ticks, n - 1);
      NightIsDated(after, life, r, ticks, n - 1);
      var before, now := AfterTicks(after, r, ticks, n - 1), ticks(n - 1);
      var last := |before.wakes| - 1;
      if last >= 0 && before.wakes[last] >= r.due.value && now < before.record.updated.value + LEGACY_WAKE {
        HandledOnce(before.record, now);
      }
      assert forall j | 0 <= j <= last && before.wakes[j] >= r.due.value :: before.wakes[last] >= r.due.value;
    }
  }
}
