/** The runner's methods, one delivery at a time: what each leaves in the store and in the claims. */
module Runners {
  import opened Tasks
  import opened Keys
  import opened Selection
  import opened Rows
  import opened Backlog
  import opened Backoff
  import opened Records
  import opened Delivery
  import opened Protocol
  import opened Retries
  import opened Storage

  /** The keyed due scan yields what the step-by-step model calls a due batch. */
  lemma DueScanIsBatch(v: View, m: Store, due: seq<Task>, second: int, n: int)
    requires Represents(v, m) && IsDueScan(v, second, n, due)
    ensures DueBatch(m, due)
  {
    var keys := TaskKeys(due);
    forall i | 0 <= i < |due|
      ensures Lookup(m, due[i].id) == Some(due[i]) && due[i].status.Pending?
    {
      assert keys[i] in Elems(keys);
    }
    forall i, j | 0 <= i < j < |due|
      ensures due[i].id != due[j].id
    {
      if due[i].id == due[j].id {
        OneRowPerId(v, m, keys[i], keys[j]);
        SortedOnce(keys, i, j);
      }
    }
  }

  /** Saves the next link of a chain, if the task recurs. */
  function Rescheduled(store: Store, t: Task, fireTime: Time, newId: Id): Store {
    if Recurs(t) then store[newId := Successor(t, newId, fireTime)] else store
  }

  /** What goes out when a task has failed: one report, to its own url or else to the fallback; none without a url. */
  ghost predicate Reported(t: Task, fallback: string, scene: Scene, sent: seq<Sent>) {
    if t.attempts == [] || (t.onFailureUrl == "" && fallback == "") then sent == []
    else
      && |sent| == 1 && sent[0].scene == scene
      && sent[0].task.url == (if t.onFailureUrl != "" then t.onFailureUrl else fallback)
      && sent[0].task.request
         == Request("POST", map[], FailureReport(t.id, t.status, |t.attempts|, Last(t).error, Last(t).statusCode), 0)
  }

  ghost predicate ReportedIfFailed(t: Task, fallback: string, scene: Scene, sent: seq<Sent>) {
    if t.status.Failed? then Reported(t, fallback, scene, sent) else sent == []
  }

  ghost function IdsOf(ts: seq<Task>): set<Id> {
    set i | 0 <= i < |ts| :: ts[i].id
  }

  /** Exactly the tasks that nobody holds, each once. */
  ghost predicate StartedFrom(due: seq<Task>, held: set<Id>, started: seq<Task>) {
    && (forall t :: t in started <==> t in due && t.id !in held)
    && (forall i, j :: 0 <= i < j < |started| ==> started[i].id != started[j].id)
  }

  lemma StartNext(tasks: seq<Task>, i: nat, held: set<Id>, started: seq<Task>)
    requires i < |tasks| && forall j, k :: 0 <= j < k < |tasks| ==> tasks[j].id != tasks[k].id
    requires StartedFrom(tasks[..i], held, started)
    ensures IdsOf(tasks[..i + 1]) == IdsOf(tasks[..i]) + {tasks[i].id} && tasks[i].id !in IdsOf(tasks[..i])
    ensures StartedFrom(tasks[..i + 1], held, if tasks[i].id in held then started else started + [tasks[i]])
  {
    NewInBatch(tasks, i);
    forall k | 0 <= k < |started|
      ensures started[k].id != tasks[i].id
    {
      assert started[k] in tasks[..i];
    }
  }

  lemma AllDueStarted(v: View, m: Store, end: Time, due: seq<Task>, held: set<Id>, started: seq<Task>)
    requires Represents(v, m) && OldestDue(m, end, 1000, due) && StartedFrom(due, held, started)
    ensures |DueIds(m, end)| <= 1000 ==> forall id :: id in DueIds(m, end) && id !in held ==> m[id] in started
  {
    if |DueIds(m, end)| <= 1000 {
      forall id | id in DueIds(m, end) && id !in held
        ensures m[id] in started
      {
        AllDueTaken(m, end, 1000, due, id);
        assert m[id].id == id;
      }
    }
  }

  class Runner {
    const store: BadgerStore
    const world: World
    const config: Config
    var inflight: set<Id>
    var sem: nat
    var wg: nat

    constructor (store: BadgerStore, world: World, config: Config)
      ensures this.store == store && this.world == world && this.config == config
      ensures inflight == {} && sem == 0 && wg == 0
    {
      this.store, this.world, this.config := store, world, config;
      inflight, sem, wg := {}, 0, 0;
    }

    method Claim(id: Id) returns (ok: bool)
      modifies this`inflight
      ensures ok <==> id !in old(inflight)
      ensures inflight == old(inflight) + {id}
    {
      if id in inflight {
        return false;
      }
      inflight := inflight + {id};
      return true;
    }

    method Release(id: Id)
      modifies this`inflight
      ensures inflight == old(inflight) - {id}
    {
      inflight := inflight - {id};
    }

    /** One tick: a goroutine is started for every due task that no goroutine holds, and for no other. */
    method RunOnce(end: Time) returns (started: seq<Task>, ghost due: seq<Task>)
      requires store.Valid() && InCalendar(store.db.rows) && SecondOk(Unix(end))
      modifies this`inflight, this`wg
      ensures IsDueScan(store.db.rows, Unix(end), 1000, due) && OldestDue(store.tasks, end, 1000, due)
      ensures DueBatch(store.tasks, due) && StartedFrom(due, old(inflight), started)
      ensures |DueIds(store.tasks, end)| <= 1000 ==>
        forall id :: id in DueIds(store.tasks, end) && id !in old(inflight) ==> store.tasks[id] in started
      ensures inflight == old(inflight) + IdsOf(due) && wg == old(wg) + |started|
    {
      var tasks := store.GetDueTasks(end, MAX_DUE_BATCH);
      DueScanIsBatch(store.db.rows, store.tasks, tasks, Unix(end), MAX_DUE_BATCH);
      ScanIsOldestDue(store.db.rows, store.tasks, end, MAX_DUE_BATCH, tasks);
      due := tasks;
      started := ClaimAll(tasks);
      AllDueStarted(store.db.rows, store.tasks, end, due, old(inflight), started);
    }

    /** The loop of a tick. */
    method ClaimAll(tasks: seq<Task>) returns (started: seq<Task>)
      requires forall i, j :: 0 <= i < j < |tasks| ==> tasks[i].id != tasks[j].id
      modifies this`inflight, this`wg
      ensures StartedFrom(tasks, old(inflight), started)
      ensures inflight == old(inflight) + IdsOf(tasks) && wg == old(wg) + |started|
    {
      started := [];
      for i := 0 to |tasks|
        invariant StartedFrom(tasks[..i], old(inflight), started)
        invariant inflight == old(inflight) + IdsOf(tasks[..i]) && wg == old(wg) + |started|
      {
        StartNext(tasks, i, old(inflight), started);
        var claimed := Claim(tasks[i].id);
        if !claimed {
          continue;
        }
        wg := wg + 1;
        started := started + [tasks[i]];
      }
      assert tasks[..|tasks|] == tasks;
    }

    /** Re-enqueues a recurring task, due one interval after the fire time; nothing else in the store changes. */
    method Reschedule(t: Task, fireTime: Time, newId: Id)
      requires store.Valid() && ColonFree(newId) && newId !in store.tasks
      modifies store
      ensures store.Valid() && store.tasks == Rescheduled(old(store.tasks), t, fireTime, newId)
      ensures if t.schedule.Every? && t.schedule.interval > 0
              then newId in store.tasks && store.tasks == old(store.tasks)[newId := store.tasks[newId]]
              else store.tasks == old(store.tasks)
      ensures t.schedule.Every? && t.schedule.interval > 0 ==>
        var next := store.tasks[newId];
        && next.executeAt - fireTime == t.schedule.interval
        && next.id == newId && Repeated(t, next)
    {
      if t.schedule.OneShot? {
        return;
      }
      if t.schedule.Malformed? || t.schedule.interval <= 0 {
        return;
      }
      var next := t.(id := newId, idempotencyKey := "", executeAt := fireTime + t.schedule.interval,
                     status := Pending, attempts := [], finishedAt := None);
      store.Save(next);
    }

    /** The failure callback: one report to the task's url, or else the fallback, its answer ignored; or none. */
    method NotifyFailure(t: Task) returns (ghost sent: seq<Sent>)
      modifies world`clock, world`answers, world`sent
      ensures world.clock >= old(world.clock) && world.sent == old(world.sent) + sent
      ensures Reported(t, config.onFailureUrl, Scene(store.tasks, inflight, sem), sent)
    {
      sent := [];
      var url := t.onFailureUrl;
      if url == "" {
        url := config.onFailureUrl;
      }
      if url == "" || |t.attempts| == 0 {
        return;
      }
      var last := t.attempts[|t.attempts| - 1];
      var report := FailureReport(t.id, t.status, |t.attempts|, last.error, last.statusCode);
      var callback := Task("", "", url, Request("POST", map[], report, 0), 0, 0, 0, Fixed, "", OneShot, Pending, [], None);
      sent := [Sent(callback, world.clock, Scene(store.tasks, inflight, sem))];
      var _ := world.Execute(callback, Scene(store.tasks, inflight, sem));
    }

    /** Retires a task that came due too long ago, reports it and re-enqueues it. */
    method SkipStale(t: Task, fireTime: Time, newId: Id) returns (failed: Task, ghost report: seq<Sent>)
      requires store.Valid() && ColonFree(t.id) && ColonFree(newId) && newId !in store.tasks && newId != t.id
      modifies store, world`clock, world`answers, world`sent
      ensures store.Valid() && IsSkip(t, fireTime, failed)
      ensures store.tasks == Rescheduled(old(store.tasks)[t.id := failed], failed, fireTime, newId)
      ensures world.sent == old(world.sent) + report
      ensures Reported(failed, config.onFailureUrl, Scene(old(store.tasks)[t.id := failed], inflight, sem), report)
    {
      failed := t.(status := Failed,
                   attempts := t.attempts + [Attempt(|t.attempts| + 1, fireTime, 0, SKIP_REASON, 0)],
                   finishedAt := Some(fireTime));
      store.Update(failed);
      report := NotifyFailure(failed);
      Reschedule(failed, fireTime, newId);
    }

    /** The terminal write, the callback and the reschedule, in this order. */
    method FinishTask(t: Task, fireTime: Time, newId: Id) returns (ghost report: seq<Sent>)
      requires store.Valid() && ColonFree(t.id) && ColonFree(newId) && newId !in store.tasks && newId != t.id
      modifies store, world`clock, world`answers, world`sent
      ensures store.Valid() && store.tasks == Rescheduled(old(store.tasks)[t.id := t], t, fireTime, newId)
      ensures world.sent == old(world.sent) + report
      ensures ReportedIfFailed(t, config.onFailureUrl, Scene(old(store.tasks)[t.id := t], inflight, sem), report)
    {
      store.Update(t);
      report := [];
      if t.status.Failed? {
        report := NotifyFailure(t);
      }
      Reschedule(t, fireTime, newId);
    }

    /** Marks the task as running and fires it: each request goes out while the store shows it running. */
    method MarkAndFire(cur: Task)
        returns (done: Task, ghost answers: seq<Result>, ghost log: seq<Retry>, ghost tried: seq<Sent>)
      requires store.Valid() && ColonFree(cur.id)
      modifies store, world
      ensures store.Valid() && store.tasks == old(store.tasks)[cur.id := cur.(status := Running)]
      ensures Ended(cur.(status := Running), done, answers, log) && done.finishedAt.Some?
      ensures Paced(Millis(cur.retryInterval), cur.retryMode, log) && Interleaved(log, tried)
      ensures world.slept - old(world.slept) <= SleepOf(cur)
      ensures InOrder(|cur.attempts|, done.attempts, old(world.clock), done.finishedAt.value)
      ensures world.sent == old(world.sent) + tried
      ensures Sends(cur.(status := Running), done.attempts, |answers|, Scene(store.tasks, inflight, sem), tried)
    {
      var t := cur.(status := Running);
      store.Update(t);
      var attempt;
      done, attempt, answers, tried := Fire(world, t, Scene(store.tasks, inflight, sem));
      log := attempt.log;
    }

    /** Fires the re-read task, records the outcome, calls back and reschedules. */
    method RunTask(cur: Task, fireTime: Time, newId: Id) returns (ghost run: Outcome)
      requires store.Valid() && ColonFree(cur.id) && ColonFree(newId) && newId !in store.tasks && newId != cur.id
      modifies store, world
      ensures store.Valid() && run.fireTime == fireTime && HasRun(cur, run, old(world.clock))
      ensures store.tasks == Rescheduled(old(store.tasks)[cur.id := run.done], run.done, fireTime, newId)
      ensures world.sent == old(world.sent) + run.tried + run.report
      ensures SentByRun(config, cur, run, Scene(old(store.tasks), inflight, sem))
      ensures world.slept - old(world.slept) <= SleepOf(cur)
    {
      ghost var before := store.tasks;
      var done, answers, log, tried := MarkAndFire(cur);
      EndedSameId(cur.(status := Running), done, answers, log);
      LastWriteWins(before, cur.id, cur.(status := Running), done);
      ghost var report := FinishTask(done, fireTime, newId);
      run := Outcome(fireTime, done, answers, log, tried, report);
    }

    /** The pre-fire wait: until the task is due, and not longer than it takes from the clock reading on. */
    method AwaitTimer(t: Task) returns (ghost read: Time)
      modifies world
      ensures world.clock >= old(world.clock) && world.clock >= t.executeAt
      ensures world.answers == old(world.answers) && world.sent == old(world.sent)
      ensures old(world.clock) <= read && world.slept - old(world.slept) == Max(t.executeAt - read, 0)
    {
      var now := world.Now();
      read := now;
      if now < t.executeAt {
        world.Sleep(t.executeAt - now);
      }
    }

    /** With a slot in hand: re-reads the task, and skips it, fires it or leaves it alone. */
    method FireSlotted(t: Task, newId: Id) returns (ghost run: Option<Outcome>)
      requires store.Valid() && ColonFree(t.id) && ColonFree(newId) && newId !in store.tasks && newId != t.id
      modifies store, world
      ensures store.Valid()
      ensures run.Some? <==> Wanted(old(store.tasks), t)
      ensures run.None? ==> store.tasks == old(store.tasks) && world.sent == old(world.sent)
      ensures run.Some? ==>
        && run.value.fireTime >= old(world.clock)
        && IsOutcome(config, old(store.tasks)[t.id], run.value)
        && store.tasks == Rescheduled(old(store.tasks)[t.id := run.value.done], run.value.done, run.value.fireTime, newId)
      ensures run.Some? ==>
        && world.sent == old(world.sent) + run.value.tried + run.value.report
        && SentBy(config, old(store.tasks)[t.id], run.value, Scene(old(store.tasks), inflight, sem))
      ensures world.slept - old(world.slept) <= if run.Some? then SleepOf(old(store.tasks)[t.id]) else 0
    {
      var fireTime := world.Now();
      var cur := store.GetTask(t.id);
      if cur.None? || !cur.value.status.Pending? {
        return None;
      }
      if cur.value.executeAt != t.executeAt {
        return None;
      }
      SameId(store.db.rows, store.tasks, t.id);
      var late := fireTime - cur.value.executeAt;
      if config.maxStaleness > 0 && late > config.maxStaleness {
        var failed, report := SkipStale(cur.value, fireTime, newId);
        return Some(Outcome(fireTime, failed, [], [], [], report));
      }
      var done := RunTask(cur.value, fireTime, newId);
      return Some(done);
    }

    /**
     The whole goroutine, run to its end without interference. `timerWins` and `slotWins` say how its two
     selects resolve. Claim, slot and wait group are given back on every path.
     */
    method Deliver(t: Task, timerWins: bool, slotWins: bool, newId: Id) returns (ghost run: Option<Outcome>)
      requires store.Valid() && ColonFree(t.id) && ColonFree(newId) && newId !in store.tasks && newId != t.id
      requires t.id in inflight && wg > 0 && (slotWins ==> sem < config.slots)
      modifies this, store, world
      ensures store.Valid() && inflight == old(inflight) - {t.id} && sem == old(sem) && wg == old(wg) - 1
      ensures run.Some? <==> timerWins && slotWins && Wanted(old(store.tasks), t)
      ensures run.None? ==> store.tasks == old(store.tasks) && world.sent == old(world.sent)
      ensures run.Some? ==>
        && run.value.fireTime >= t.executeAt && run.value.fireTime >= old(world.clock)
        && IsOutcome(config, old(store.tasks)[t.id], run.value)
        && store.tasks == Rescheduled(old(store.tasks)[t.id := run.value.done], run.value.done, run.value.fireTime, newId)
      ensures run.Some? ==>
        && world.sent == old(world.sent) + run.value.tried + run.value.report
        && SentBy(config, old(store.tasks)[t.id], run.value, Scene(old(store.tasks), old(inflight), old(sem) + 1))
      ensures world.slept - old(world.slept)
              <= Max(t.executeAt - old(world.clock), 0) + if run.Some? then SleepOf(old(store.tasks)[t.id]) else 0
    {
      run := None;
      if timerWins {
        ghost var _ := AwaitTimer(t);
        if slotWins {
          sem := sem + 1;
          run := FireSlotted(t, newId);
          sem := sem - 1;
        }
      }
      Release(t.id);
      wg := wg - 1;
    }
  }

  /** The end of a run: when it fired, the record it left, its answers and retries, and what it sent. */
  datatype Outcome = Outcome(
    fireTime: Time, done: Task, answers: seq<Result>, log: seq<Retry>, tried: seq<Sent>, report: seq<Sent>)

  /** The most that a run of the task can sleep between its attempts. */
  function SleepOf(t: Task): nat {
    SleepBound(t.retries, Longest(Millis(t.retryInterval), t.retryMode))
  }

  predicate Wanted(store: Store, t: Task) {
    IsPending(store, t.id) && store[t.id].executeAt == t.executeAt
  }

  ghost predicate HasRun(cur: Task, run: Outcome, start: Time) {
    && Ended(cur.(status := Running), run.done, run.answers, run.log)
    && Paced(Millis(cur.retryInterval), cur.retryMode, run.log) && Interleaved(run.log, run.tried)
    && run.done.finishedAt.Some? && InOrder(|cur.attempts|, run.done.attempts, start, run.done.finishedAt.value)
  }

  /** A task later than the limit, if there is one, is retired undelivered; any other is run. */
  ghost predicate IsOutcome(c: Config, cur: Task, run: Outcome) {
    if c.maxStaleness > 0 && run.fireTime > cur.executeAt + c.maxStaleness then IsSkip(cur, run.fireTime, run.done)
    else HasRun(cur, run, run.fireTime)
  }

  /** The attempts go out with the record running, the report with the outcome recorded and no successor saved yet. */
  ghost predicate SentByRun(c: Config, cur: Task, run: Outcome, before: Scene) {
    var running := cur.(status := Running);
    && Sends(running, run.done.attempts, |run.answers|, before.(store := before.store[cur.id := running]), run.tried)
    && ReportedIfFailed(run.done, c.onFailureUrl, before.(store := before.store[cur.id := run.done]), run.report)
  }

  /** What a delivery sends: its attempts, unless it is skipped, and then the report of a failure. */
  ghost predicate SentBy(c: Config, cur: Task, run: Outcome, before: Scene) {
    if c.maxStaleness > 0 && run.fireTime > cur.executeAt + c.maxStaleness
    then run.tried == []
         && Reported(run.done, c.onFailureUrl, before.(store := before.store[cur.id := run.done]), run.report)
    else SentByRun(c, cur, run, before)
  }

  lemma SameId(v: View, m: Store, id: Id)
    requires Represents(v, m) && id in m
    ensures m[id].id == id
  {
  }

  lemma LastWriteWins(store: Store, id: Id, first: Task, last: Task)
    ensures store[id := first][id := last] == store[id := last]
  {
  }

  lemma EndedSameId(t: Task, done: Task, answers: seq<Result>, log: seq<Retry>)
    requires Ended(t, done, answers, log)
    ensures done.id == t.id
  {
  }

  lemma NewInBatch(tasks: seq<Task>, i: nat)
    requires i < |tasks| && forall j, k :: 0 <= j < k < |tasks| ==> tasks[j].id != tasks[k].id
    ensures IdsOf(tasks[..i + 1]) == IdsOf(tasks[..i]) + {tasks[i].id} && tasks[i].id !in IdsOf(tasks[..i])
    ensures forall t :: t in tasks[..i + 1] <==> t in tasks[..i] || t == tasks[i]
  {
    assert tasks[..i + 1] == tasks[..i] + [tasks[i]];
    forall id
      ensures id in IdsOf(tasks[..i + 1]) <==> id in IdsOf(tasks[..i]) || id == tasks[i].id
    {
      if id in IdsOf(tasks[..i]) {
        var j :| 0 <= j < i && tasks[..i][j].id == id;
        assert tasks[..i + 1][j].id == id;
      }
      assert tasks[..i + 1][i].id in IdsOf(tasks[..i + 1]);
    }
  }
}
