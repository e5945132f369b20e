/**
 One delivery goroutine, from its claim to its last deferred call, cut into the steps at which it
 touches anything shared: the store, the clock, the slots, the claims, the counters or the network.
 */
module Delivery {
  import opened Tasks
  import opened Records

  /** Settings read at start-up. `maxStaleness` zero means no limit. */
  datatype Config = Config(slots: nat, maxStaleness: nat, onFailureUrl: string)

  datatype Phase =
    | Waiting       // on the pre-fire timer
    | Queueing      // for a delivery slot
    | Slotted       // holds a slot
    | Timed         // fire time read, about to re-read the task
    | Marking       // committed to firing, about to write it as running
    | Firing        // about to call the target, after any retry wait
    | Executing     // the target is being called
    | Settling      // outcome known, about to be counted
    | Finalizing    // about to write the terminal record
    | Notifying     // about to decide on the failure callback
    | CallingBack   // the callback is being called
    | Rescheduling  // about to save the successor
    | Leaving       // about to free the slot
    | Unslotted     // about to release the claim
    | Released      // about to report done

  /** `task` is the goroutine's own copy; `base` remembers the record it re-read; `tries` counts retries. */
  datatype Delivery = Delivery(id: Id, task: Task, base: Task, fireTime: Time, tries: nat, phase: Phase)

  datatype Action =
    | TimerFires
    | Abandon                       // shutdown wins the select
    | TakeSlot
    | ReadClock
    | Reread(readOk: bool)
    | MarkRunning(ok: bool)
    | CallTarget
    | TargetAnswers(res: Result)
    | Settle
    | Finalize(ok: bool)
    | Notify
    | CallbackAnswers
    | Reschedule(newId: Id, ok: bool)
    | FreeSlot
    | FreeClaim
    | Finish

  /** What a step can see of the rest of the system. */
  datatype Sight = Sight(now: Time, stored: Option<Task>, slotFree: bool, stopping: bool)

  /** The process-wide counters. */
  datatype Tally = Tally(
    delivered: nat, undelivered: nat, succeeded: nat, failed: nat, skipped: nat, lateness: nat, durations: nat, gauge: int)

  predicate HoldsClaim(p: Phase) {
    !p.Released?
  }

  predicate HoldsSlot(p: Phase) {
    !p.Waiting? && !p.Queueing? && !p.Unslotted? && !p.Released?
  }

  /** Between the re-read and the end of the reschedule: the run is under way. */
  predicate UnderWay(p: Phase) {
    match p
    case Marking | Firing | Executing | Settling | Finalizing | Notifying | CallingBack | Rescheduling => true
    case _ => false
  }

  predicate CallsOut(p: Phase) {
    p.Executing? || p.CallingBack?
  }

  /** The re-read found the task pending and still due at the time this run was claimed for. */
  predicate StillWanted(d: Delivery, a: Action, s: Sight)
    requires a.Reread?
  {
    a.readOk && s.stored.Some? && s.stored.value.status.Pending? && s.stored.value.executeAt == d.task.executeAt
  }

  predicate TooStale(c: Config, t: Task, fireTime: Time) {
    c.maxStaleness > 0 && fireTime - t.executeAt > c.maxStaleness
  }

  predicate Can(c: Config, d: Delivery, a: Action, s: Sight) {
    match a
    case TimerFires => d.phase.Waiting? && d.task.executeAt <= s.now
    case Abandon => (d.phase.Waiting? || d.phase.Queueing?) && s.stopping
    case TakeSlot => d.phase.Queueing? && s.slotFree
    case ReadClock => d.phase.Slotted?
    case Reread(_) => d.phase.Timed?
    case MarkRunning(_) => d.phase.Marking?
    case CallTarget => d.phase.Firing?
    case TargetAnswers(_) => d.phase.Executing?
    case Settle => d.phase.Settling?
    case Finalize(_) => d.phase.Finalizing?
    case Notify => d.phase.Notifying?
    case CallbackAnswers => d.phase.CallingBack?
    case Reschedule(_, _) => d.phase.Rescheduling?
    case FreeSlot => d.phase.Leaving?
    case FreeClaim => d.phase.Unslotted?
    case Finish => d.phase.Released?
  }

  function Moved(c: Config, d: Delivery, a: Action, s: Sight): Delivery
    requires Can(c, d, a, s)
  {
    match a
    case TimerFires => d.(phase := Queueing)
    case Abandon => d.(phase := Unslotted)
    case TakeSlot => d.(phase := Slotted)
    case ReadClock => d.(fireTime := s.now, phase := Timed)
    case Reread(_) =>
      if !StillWanted(d, a, s) then d.(phase := Leaving)
      else
        var cur := s.stored.value;
        if TooStale(c, cur, d.fireTime) then d.(base := cur, task := Skipped(cur, d.fireTime), phase := Finalizing)
        else d.(base := cur, task := cur, tries := 0, phase := Marking)
    case MarkRunning(_) => d.(task := d.task.(status := Running), phase := Firing)
    case CallTarget => d.(phase := Executing)
    case TargetAnswers(res) =>
      var t := Recorded(d.task, res, s.now);
      if res.err.None? then d.(task := t.(status := Succeeded), phase := Settling)
      else if d.tries < d.task.retries then d.(task := t, tries := d.tries + 1, phase := Firing)
      else d.(task := t.(status := Failed), phase := Settling)
    case Settle => d.(task := d.task.(finishedAt := Some(s.now)), phase := Finalizing)
    case Finalize(_) => d.(phase := if d.task.status.Failed? then Notifying else Rescheduling)
    case Notify => d.(phase := if CallsBack(d.task, c.onFailureUrl) then CallingBack else Rescheduling)
    case CallbackAnswers => d.(phase := Rescheduling)
    case Reschedule(_, _) => d.(phase := Leaving)
    case FreeSlot => d.(phase := Unslotted)
    case FreeClaim => d.(phase := Released)
    case Finish => d
  }

  /** The record a step writes to the store, if it writes one and the write succeeds. */
  function Written(d: Delivery, a: Action): Option<Task> {
    match a
    case MarkRunning(ok) => if ok then Some(d.task.(status := Running)) else None
    case Finalize(ok) => if ok then Some(d.task) else None
    case Reschedule(newId, ok) => if ok && Recurs(d.task) then Some(Successor(d.task, newId, d.fireTime)) else None
    case _ => None
  }

  function Counted(c: Config, d: Delivery, a: Action, s: Sight, m: Tally): Tally {
    match a
    case TakeSlot => m.(gauge := m.gauge + 1)
    case Reread(_) =>
      if !StillWanted(d, a, s) then m
      else if TooStale(c, s.stored.value, d.fireTime) then m.(skipped := m.skipped + 1, failed := m.failed + 1)
      else m.(lateness := m.lateness + 1)
    case TargetAnswers(res) =>
      if res.err.None? then m.(delivered := m.delivered + 1, durations := m.durations + 1)
      else m.(undelivered := m.undelivered + 1, durations := m.durations + 1)
    case Settle =>
      if d.task.status.Succeeded? then m.(succeeded := m.succeeded + 1) else m.(failed := m.failed + 1)
    case FreeSlot => m.(gauge := m.gauge - 1)
    case _ => m
  }

  // ---- what is true of one delivery, whatever the rest of the system does

  /** The run fires its base record: only the status and the attempt log move on from it. */
  ghost predicate RunsBase(d: Delivery) {
    && d.task == d.base.(status := d.task.status, attempts := d.task.attempts, finishedAt := d.task.finishedAt)
    && d.base.attempts <= d.task.attempts
  }

  /** The base record was pending when re-read, was due by then, and was not too stale to fire. */
  ghost predicate FiredInTime(c: Config, d: Delivery) {
    && d.base.status.Pending? && d.base.id == d.id && RecordOk(d.base)
    && d.base.executeAt <= d.fireTime
    && !TooStale(c, d.base, d.fireTime)
  }

  /** Every new attempt but the last one failed; `more` says whether another may follow. */
  ghost predicate RetriesOk(d: Delivery, more: bool) {
    var added := |d.task.attempts| - |d.base.attempts|;
    && added == (if more then d.tries else d.tries + 1)
    && d.tries <= Max(d.base.retries, 0)
    && (forall i :: |d.base.attempts| <= i < |d.base.attempts| + d.tries ==> d.task.attempts[i].error != "")
    && (d.task.status.Failed? ==> d.tries == Max(d.base.retries, 0))
  }

  ghost predicate SkippedRun(c: Config, d: Delivery) {
    && d.base.status.Pending? && d.base.id == d.id && RecordOk(d.base) && d.base.executeAt <= d.fireTime
    && TooStale(c, d.base, d.fireTime)
    && d.task == Skipped(d.base, d.fireTime)
  }

  ghost predicate FinishedRun(c: Config, d: Delivery) {
    && FiredInTime(c, d) && RunsBase(d) && RetriesOk(d, false)
    && RecordOk(d.task) && (d.task.status.Succeeded? || d.task.status.Failed?)
  }

  ghost predicate DeliveryOk(c: Config, now: Time, d: Delivery) {
    && d.task.id == d.id
    && match d.phase
       case Waiting => true
       case Queueing | Slotted => d.task.executeAt <= now
       case Timed => d.task.executeAt <= d.fireTime <= now
       case Marking => FiredInTime(c, d) && d.fireTime <= now && d.task == d.base && d.tries == 0
       case Firing | Executing =>
         && FiredInTime(c, d) && d.fireTime <= now && RunsBase(d) && RetriesOk(d, true)
         && d.task.status.Running? && RecordOk(d.task)
       case Settling =>
         && FiredInTime(c, d) && d.fireTime <= now && RunsBase(d) && RetriesOk(d, false)
         && (d.task.status.Succeeded? || d.task.status.Failed?) && Numbered(d.task.attempts)
         && d.task.attempts != [] && (d.task.status.Succeeded? <==> Last(d.task).error == "")
       case Finalizing | Notifying | CallingBack | Rescheduling =>
         d.fireTime <= now && (SkippedRun(c, d) || FinishedRun(c, d))
       case Leaving | Unslotted | Released => true
  }

  /** Each step keeps it, given only that the stored record it may re-read is in order. */
  lemma StepKeepsDelivery(c: Config, d: Delivery, a: Action, s: Sight)
    requires Can(c, d, a, s) && DeliveryOk(c, s.now, d)
    requires s.stored.Some? ==> RecordOk(s.stored.value) && s.stored.value.id == d.id
    ensures DeliveryOk(c, s.now, Moved(c, d, a, s)) && Moved(c, d, a, s).id == d.id
  {
    match a {
      case Reread(_) => RereadKeepsDelivery(c, d, a, s);
      case MarkRunning(_) => MarkKeepsDelivery(c, d, a, s);
      case TargetAnswers(_) => AnswerKeepsDelivery(c, d, a, s);
      case Settle => SettleKeepsDelivery(c, d, a, s);
      case Finalize(_) => WindDownKeepsDelivery(c, d, a, s);
      case Notify => WindDownKeepsDelivery(c, d, a, s);
      case CallbackAnswers => WindDownKeepsDelivery(c, d, a, s);
      case _ =>
    }
  }

  lemma MarkKeepsDelivery(c: Config, d: Delivery, a: Action, s: Sight)
    requires a.MarkRunning? && Can(c, d, a, s) && DeliveryOk(c, s.now, d)
    ensures DeliveryOk(c, s.now, Moved(c, d, a, s))
  {
    assert RetriesOk(Moved(c, d, a, s), true);
  }

  lemma SettleKeepsDelivery(c: Config, d: Delivery, a: Action, s: Sight)
    requires a.Settle? && Can(c, d, a, s) && DeliveryOk(c, s.now, d)
    ensures DeliveryOk(c, s.now, Moved(c, d, a, s))
  {
    assert RetriesOk(Moved(c, d, a, s), false);
  }

  lemma WindDownKeepsDelivery(c: Config, d: Delivery, a: Action, s: Sight)
    requires (a.Finalize? || a.Notify? || a.CallbackAnswers?) && Can(c, d, a, s) && DeliveryOk(c, s.now, d)
    ensures DeliveryOk(c, s.now, Moved(c, d, a, s))
  {
    var e := Moved(c, d, a, s);
    assert e == d.(phase := e.phase);
    assert SkippedRun(c, d) ==> SkippedRun(c, e);
    assert FinishedRun(c, d) ==> FinishedRun(c, e);
  }

  lemma RereadKeepsDelivery(c: Config, d: Delivery, a: Action, s: Sight)
    requires a.Reread? && Can(c, d, a, s) && DeliveryOk(c, s.now, d)
    requires s.stored.Some? ==> RecordOk(s.stored.value) && s.stored.value.id == d.id
    ensures DeliveryOk(c, s.now, Moved(c, d, a, s))
  {
    if StillWanted(d, a, s) {
      SkippedOk(s.stored.value, d.fireTime);
    }
  }

  lemma AnswerKeepsDelivery(c: Config, d: Delivery, a: Action, s: Sight)
    requires a.TargetAnswers? && Can(c, d, a, s) && DeliveryOk(c, s.now, d)
    ensures DeliveryOk(c, s.now, Moved(c, d, a, s))
  {
    var t := Recorded(d.task, a.res, s.now);
    RecordedLog(d.task, a.res, s.now);
    assert t.attempts[..|d.task.attempts|] == d.task.attempts;
    assert d.base.attempts <= t.attempts;
    assert t.attempts[|d.base.attempts| + d.tries] == Last(t);
  }

  /** Whatever a step writes is in order: a running record, or a finished one under the task's id, or a successor. */
  lemma StepWritesOk(c: Config, d: Delivery, a: Action, s: Sight)
    requires Can(c, d, a, s) && DeliveryOk(c, s.now, d) && Written(d, a).Some?
    ensures var t := Written(d, a).value;
            RecordOk(t) && t.id == (if a.Reschedule? then a.newId else d.id)
            && (a.MarkRunning? ==> t.status.Running?)
            && (a.Finalize? ==> t.status.Succeeded? || t.status.Failed?)
            && (a.Reschedule? ==> t.status.Pending? && t.idempotencyKey == "" && t.executeAt > d.task.executeAt)
            && (a.MarkRunning? || a.Finalize? || a.Reschedule?)
  {
    if d.phase.Finalizing? && SkippedRun(c, d) {
      SkippedOk(d.base, d.fireTime);
    }
    if d.phase.Marking? {
      assert RecordOk(d.task.(status := Running));
    }
  }

  /** A finished run: how many attempts it took, and what they say about its outcome. */
  lemma RunOutcome(c: Config, now: Time, d: Delivery)
    requires DeliveryOk(c, now, d) && FinishedRun(c, d)
    ensures var added := |d.task.attempts| - |d.base.attempts|;
            && 1 <= added <= Max(d.base.retries, 0) + 1
            && (d.task.status.Succeeded? <==> Last(d.task).error == "")
            && (d.task.status.Failed? ==> added == Max(d.base.retries, 0) + 1)
            && (d.task.status.Failed? ==>
                  forall i :: |d.base.attempts| <= i < |d.task.attempts| ==> d.task.attempts[i].error != "")
  {
  }
}
