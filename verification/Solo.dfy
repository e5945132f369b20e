/** One delivery without interference, step by step: what the runner's methods leave is what the steps reach. */
module Solo {
  import opened Tasks
  import opened Keys
  import opened Records
  import opened Delivery
  import opened Protocol
  import opened Retries
  import opened Runners

  /** A goroutine, the store it works on and the clock: a slot is free, a shutdown may be under way, time passes. */
  datatype Local = Local(d: Delivery, store: Store, now: Time)

  datatype Move = Pass(ns: nat) | Do(a: Action)

  function SightIn(p: Local): Sight {
    Sight(p.now, Lookup(p.store, p.d.id), true, true)
  }

  predicate Possible(c: Config, p: Local, m: Move) {
    m.Do? ==> Can(c, p.d, m.a, SightIn(p)) && (m.a.Reschedule? ==> m.a.newId !in p.store && ColonFree(m.a.newId))
  }

  function Next(c: Config, p: Local, m: Move): Local
    requires Possible(c, p, m)
  {
    match m
    case Pass(ns) => p.(now := p.now + ns)
    case Do(a) => Local(Moved(c, p.d, a, SightIn(p)), Upsert(p.store, Written(p.d, a)), p.now)
  }

  predicate Leads(c: Config, p: Local, ms: seq<Move>, q: Local)
    decreases |ms|
  {
    if ms == [] then p == q
    else Possible(c, p, ms[0]) && Leads(c, Next(c, p, ms[0]), ms[1..], q)
  }

  lemma One(c: Config, p: Local, m: Move)
    requires Possible(c, p, m)
    ensures Leads(c, p, [m], Next(c, p, m))
  {
    assert [m][1..] == [];
  }

  lemma {:induction false} Both(c: Config, p: Local, ms: seq<Move>, q: Local, ns: seq<Move>, r: Local)
    requires Leads(c, p, ms, q) && Leads(c, q, ns, r)
    ensures Leads(c, p, ms + ns, r)
    decreases |ms|
  {
    if ms == [] {
      assert ms + ns == ns;
    } else {
      Both(c, Next(c, p, ms[0]), ms[1..], q, ns, r);
      assert (ms + ns)[1..] == ms[1..] + ns;
    }
  }

  /** One more step at the end. */
  lemma Then(c: Config, p: Local, ms: seq<Move>, q: Local, m: Move)
    requires Leads(c, p, ms, q) && Possible(c, q, m)
    ensures Leads(c, p, ms + [m], Next(c, q, m))
  {
    One(c, q, m);
    Both(c, p, ms, q, [m], Next(c, q, m));
  }

  // ---- each of these steps is a step of the whole system

  /** The system's state shows this goroutine, this store and this time. */
  ghost predicate Shows(s: State, g: nat, p: Local) {
    g in s.ctl.gs && s.ctl.gs[g] == p.d && s.store == p.store && s.clock == p.now
  }

  lemma MoveIsStep(c: Config, s: State, g: nat, p: Local, a: Action)
    requires Shows(s, g, p) && Possible(c, p, Do(a)) && !a.Finish?
    requires (a.Abandon? ==> s.ctl.stopping) && (a.TakeSlot? ==> s.ctl.sem < c.slots) && (a.Reschedule? ==> IsFresh(s, a.newId))
    ensures Enabled(c, s, Run(g, a)) && Shows(After(c, s, Run(g, a)), g, Next(c, p, Do(a)))
  {
  }

  lemma PassIsStep(c: Config, s: State, g: nat, p: Local, ns: nat)
    requires Shows(s, g, p)
    ensures Enabled(c, s, Elapse(ns)) && Shows(After(c, s, Elapse(ns)), g, Next(c, p, Pass(ns)))
  {
  }

  // ---- the parts of a run

  lemma UpToReread(c: Config, t: Task, store: Store, now: Time, fireTime: Time) returns (ms: seq<Move>)
    requires now <= fireTime && t.executeAt <= fireTime
    ensures Leads(c, Local(NewDelivery(t), store, now), ms, Local(Delivery(t.id, t, t, fireTime, 0, Timed), store, fireTime))
  {
    var p := Local(NewDelivery(t), store, now);
    One(c, p, Pass(fireTime - now));
    var q := Next(c, p, Pass(fireTime - now));
    ms := [Pass(fireTime - now)];
    Then(c, p, ms, q, Do(TimerFires));
    q, ms := Next(c, q, Do(TimerFires)), ms + [Do(TimerFires)];
    Then(c, p, ms, q, Do(TakeSlot));
    q, ms := Next(c, q, Do(TakeSlot)), ms + [Do(TakeSlot)];
    Then(c, p, ms, q, Do(ReadClock));
    ms := ms + [Do(ReadClock)];
  }

  /** The last steps: the slot and the claim are given back. */
  lemma Leaves(c: Config, p: Local) returns (ms: seq<Move>, q: Local)
    requires p.d.phase.Leaving?
    ensures Leads(c, p, ms, q) && q.d.phase.Released? && q.store == p.store
  {
    One(c, p, Do(FreeSlot));
    q, ms := Next(c, p, Do(FreeSlot)), [Do(FreeSlot)];
    Then(c, p, ms, q, Do(FreeClaim));
    q, ms := Next(c, q, Do(FreeClaim)), ms + [Do(FreeClaim)];
  }

  /** The callback, if the run failed and has somewhere to call. */
  lemma CallsBackFirst(c: Config, p: Local) returns (ms: seq<Move>, q: Local)
    requires p.d.phase.Notifying? || p.d.phase.Rescheduling?
    ensures Leads(c, p, ms, q) && q == p.(d := p.d.(phase := Rescheduling))
  {
    q, ms := p, [];
    if q.d.phase.Notifying? {
      Then(c, p, ms, q, Do(Notify));
      q, ms := Next(c, q, Do(Notify)), ms + [Do(Notify)];
    }
    if q.d.phase.CallingBack? {
      Then(c, p, ms, q, Do(CallbackAnswers));
      q, ms := Next(c, q, Do(CallbackAnswers)), ms + [Do(CallbackAnswers)];
    }
  }

  lemma SavesNext(c: Config, p: Local, newId: Id) returns (q: Local)
    requires p.d.phase.Rescheduling? && newId !in p.store && ColonFree(newId)
    ensures Leads(c, p, [Do(Reschedule(newId, true))], q) && q.d.phase.Leaving?
    ensures q.store == Rescheduled(p.store, p.d.task, p.d.fireTime, newId)
  {
    One(c, p, Do(Reschedule(newId, true)));
    q := Next(c, p, Do(Reschedule(newId, true)));
  }

  /** From the end of the run's outcome: the callback if it failed, the successor, the slot and the claim. */
  lemma WindsDown(c: Config, p: Local, newId: Id) returns (ms: seq<Move>, q: Local)
    requires p.d.phase.Notifying? || p.d.phase.Rescheduling?
    requires newId !in p.store && ColonFree(newId)
    ensures Leads(c, p, ms, q) && q.d.phase.Released?
    ensures q.store == Rescheduled(p.store, p.d.task, p.d.fireTime, newId)
  {
    var m;
    ms, m := CallsBackFirst(c, p);
    var n := SavesNext(c, m, newId);
    Both(c, p, ms, m, [Do(Reschedule(newId, true))], n);
    ms := ms + [Do(Reschedule(newId, true))];
    var rest;
    rest, q := Leaves(c, n);
    Both(c, p, ms, n, rest, q);
    ms := ms + rest;
  }

  lemma FinishesUp(c: Config, p: Local, newId: Id) returns (ms: seq<Move>, q: Local)
    requires p.d.phase.Finalizing? && p.d.task.id == p.d.id && newId !in p.store && newId != p.d.id && ColonFree(newId)
    ensures Leads(c, p, ms, q) && q.d.phase.Released?
    ensures q.store == Rescheduled(p.store[p.d.id := p.d.task], p.d.task, p.d.fireTime, newId)
  {
    One(c, p, Do(Finalize(true)));
    var m := Next(c, p, Do(Finalize(true)));
    var rest;
    rest, q := WindsDown(c, m, newId);
    ms := [Do(Finalize(true))] + rest;
    Both(c, p, [Do(Finalize(true))], m, rest, q);
  }

  /** The time at which the run's n-th answer was logged; before the first, its fire time. */
  ghost function TimeAt(base: Task, t: Task, fireTime: Time, n: nat): Time
    requires |base.attempts| + n <= |t.attempts|
  {
    if n == 0 then fireTime else t.attempts[|base.attempts| + n - 1].firedAt
  }

  lemma OneTurn(c: Config, base: Task, t: Task, answers: seq<Result>, log: seq<Retry>, fireTime: Time, store: Store, n: nat)
      returns (ms: seq<Move>)
    requires Ended(base.(status := Running), t, answers, log) && n < |answers|
    requires TimeAt(base, t, fireTime, n) <= TimeAt(base, t, fireTime, n + 1)
    ensures Leads(c, Local(Standing(base, t, answers, fireTime, n), store, TimeAt(base, t, fireTime, n)), ms,
                  Local(Standing(base, t, answers, fireTime, n + 1), store, TimeAt(base, t, fireTime, n + 1)))
  {
    var p := Local(Standing(base, t, answers, fireTime, n), store, TimeAt(base, t, fireTime, n));
    var wait := TimeAt(base, t, fireTime, n + 1) - TimeAt(base, t, fireTime, n);
    One(c, p, Do(CallTarget));
    var q := Next(c, p, Do(CallTarget));
    ms := [Do(CallTarget)];
    Then(c, p, ms, q, Pass(wait));
    q, ms := Next(c, q, Pass(wait)), ms + [Pass(wait)];
    Then(c, p, ms, q, Do(TargetAnswers(answers[n])));
    TurnIsSteps(c, base, t, answers, log, fireTime, n, SightIn(q));
    ms := ms + [Do(TargetAnswers(answers[n]))];
  }

  lemma {:induction false} AllTurns(c: Config, base: Task, t: Task, answers: seq<Result>, log: seq<Retry>, fireTime: Time,
                                    store: Store, n: nat) returns (ms: seq<Move>)
    requires Ended(base.(status := Running), t, answers, log) && n <= |answers|
    requires t.finishedAt.Some? && InOrder(|base.attempts|, t.attempts, fireTime, t.finishedAt.value)
    ensures Leads(c, Local(Standing(base, t, answers, fireTime, 0), store, fireTime), ms,
                  Local(Standing(base, t, answers, fireTime, n), store, TimeAt(base, t, fireTime, n)))
  {
    ms := [];
    if n > 0 {
      ms := AllTurns(c, base, t, answers, log, fireTime, store, n - 1);
      var more := OneTurn(c, base, t, answers, log, fireTime, store, n - 1);
      Both(c, Local(Standing(base, t, answers, fireTime, 0), store, fireTime), ms,
           Local(Standing(base, t, answers, fireTime, n - 1), store, TimeAt(base, t, fireTime, n - 1)), more,
           Local(Standing(base, t, answers, fireTime, n), store, TimeAt(base, t, fireTime, n)));
      ms := ms + more;
    }
  }

  /** From the mark to the outcome, counted and stamped. */
  lemma Fires(c: Config, base: Task, t: Task, answers: seq<Result>, log: seq<Retry>, fireTime: Time, store: Store)
      returns (ms: seq<Move>)
    requires Ended(base.(status := Running), t, answers, log)
    requires t.finishedAt.Some? && InOrder(|base.attempts|, t.attempts, fireTime, t.finishedAt.value)
    ensures Leads(c, Local(Standing(base, t, answers, fireTime, 0), store, fireTime), ms,
                  Local(Delivery(base.id, t, base, fireTime, |log|, Finalizing), store, t.finishedAt.value))
  {
    var n := |answers|;
    var p := Local(Standing(base, t, answers, fireTime, 0), store, fireTime);
    ms := AllTurns(c, base, t, answers, log, fireTime, store, n);
    var q := Local(Standing(base, t, answers, fireTime, n), store, TimeAt(base, t, fireTime, n));
    var wait := t.finishedAt.value - q.now;
    Then(c, p, ms, q, Pass(wait));
    q, ms := Next(c, q, Pass(wait)), ms + [Pass(wait)];
    Then(c, p, ms, q, Do(Settle));
    ms := ms + [Do(Settle)];
  }

  // ---- the whole delivery

  lemma StaleRun(c: Config, p: Local, run: Outcome, newId: Id) returns (ms: seq<Move>, q: Local)
    requires p.d.phase.Timed? && p.d.fireTime == run.fireTime && Wanted(p.store, p.d.task) && p.d.task.id == p.d.id
    requires p.store[p.d.id].id == p.d.id && TooStale(c, p.store[p.d.id], run.fireTime)
    requires IsSkip(p.store[p.d.id], run.fireTime, run.done) && newId !in p.store && ColonFree(newId)
    ensures Leads(c, p, ms, q) && q.d.phase.Released?
    ensures q.store == Rescheduled(p.store[p.d.id := run.done], run.done, run.fireTime, newId)
  {
    SkippedIsSkip(p.store[p.d.id], run.fireTime, run.done);
    One(c, p, Do(Reread(true)));
    var m := Next(c, p, Do(Reread(true)));
    var rest;
    rest, q := FinishesUp(c, m, newId);
    ms := [Do(Reread(true))] + rest;
    Both(c, p, [Do(Reread(true))], m, rest, q);
  }

  lemma FreshRun(c: Config, p: Local, run: Outcome, newId: Id) returns (ms: seq<Move>, q: Local)
    requires p.d.phase.Timed? && p.d.fireTime == run.fireTime == p.now && Wanted(p.store, p.d.task) && p.d.task.id == p.d.id
    requires p.store[p.d.id].id == p.d.id && !TooStale(c, p.store[p.d.id], run.fireTime)
    requires IsOutcome(c, p.store[p.d.id], run) && newId !in p.store && ColonFree(newId)
    ensures Leads(c, p, ms, q) && q.d.phase.Released?
    ensures q.store == Rescheduled(p.store[p.d.id := run.done], run.done, run.fireTime, newId)
  {
    var base := p.store[p.d.id];
    One(c, p, Do(Reread(true)));
    var m := Next(c, p, Do(Reread(true)));
    ms := [Do(Reread(true))];
    Then(c, p, ms, m, Do(MarkRunning(true)));
    m, ms := Next(c, m, Do(MarkRunning(true))), ms + [Do(MarkRunning(true))];
    assert run.done.attempts[..|base.attempts|] == base.attempts;
    assert m.d == Standing(base, run.done, run.answers, run.fireTime, 0);
    var more := Fires(c, base, run.done, run.answers, run.log, run.fireTime, m.store);
    var f := Local(Delivery(base.id, run.done, base, run.fireTime, |run.log|, Finalizing), m.store, run.done.finishedAt.value);
    Both(c, p, ms, m, more, f);
    ms := ms + more;
    var rest;
    rest, q := FinishesUp(c, f, newId);
    Both(c, p, ms, f, rest, q);
    ms := ms + rest;
    LastWriteWins(p.store, base.id, base.(status := Running), run.done);
  }

  /**
   Whatever outcome the runner's delivery method may have, the steps of a delivery goroutine, taken without
   interference, reach it: from its claim to the release of its claim, with the very store the method leaves.
   */
  lemma DeliverIsSteps(c: Config, t: Task, store: Store, now: Time, run: Outcome, newId: Id) returns (ms: seq<Move>, q: Local)
    requires Wanted(store, t) && store[t.id].id == t.id && newId !in store && ColonFree(newId)
    requires now <= run.fireTime && t.executeAt <= run.fireTime && IsOutcome(c, store[t.id], run)
    ensures Leads(c, Local(NewDelivery(t), store, now), ms, q) && q.d.phase.Released?
    ensures q.store == Rescheduled(store[t.id := run.done], run.done, run.fireTime, newId)
  {
    var p := Local(NewDelivery(t), store, now);
    var m := Local(Delivery(t.id, t, t, run.fireTime, 0, Timed), store, run.fireTime);
    ms := UpToReread(c, t, store, now, run.fireTime);
    var rest;
    if TooStale(c, store[t.id], run.fireTime) {
      rest, q := StaleRun(c, m, run, newId);
    } else {
      rest, q := FreshRun(c, m, run, newId);
    }
    Both(c, p, ms, m, rest, q);
    ms := ms + rest;
  }

  /** The same when it fires nothing: shutdown came first, or the task was no longer wanted. */
  lemma NoRunIsSteps(c: Config, t: Task, store: Store, now: Time, abandoned: bool) returns (ms: seq<Move>, q: Local)
    requires abandoned || !Wanted(store, t)
    ensures Leads(c, Local(NewDelivery(t), store, now), ms, q) && q.d.phase.Released? && q.store == store
  {
    var p := Local(NewDelivery(t), store, now);
    if abandoned {
      One(c, p, Do(Abandon));
      q, ms := Next(c, p, Do(Abandon)), [Do(Abandon)];
      Then(c, p, ms, q, Do(FreeClaim));
      q, ms := Next(c, q, Do(FreeClaim)), ms + [Do(FreeClaim)];
    } else {
      var fireTime := Max(now, t.executeAt);
      ms := UpToReread(c, t, store, now, fireTime);
      var m := Local(Delivery(t.id, t, t, fireTime, 0, Timed), store, fireTime);
      Then(c, p, ms, m, Do(Reread(true)));
      m, ms := Next(c, m, Do(Reread(true))), ms + [Do(Reread(true))];
      var rest;
      rest, q := Leaves(c, m);
      Both(c, p, ms, m, rest, q);
      ms := ms + rest;
    }
  }
}
