/** What a run of the server may fire: once per arming, the re-read record, in time, and never after a clean drain. */
module Firing {
  import opened Tasks
  import opened Records
  import opened Delivery
  import opened Protocol
  import opened Claims
  import opened Integrity
  import opened Steps

  /** Goroutine l.g commits to firing task `id` and tries to record it as running. */
  ghost predicate Marks(s: State, l: Label, id: Id) {
    l.Run? && l.action.MarkRunning? && l.g in s.ctl.gs && s.ctl.gs[l.g].id == id
  }

  /** Nobody is about to fire `id`, and nobody can become so without an arming. */
  ghost predicate Quiet(gs: map<nat, Delivery>, store: Store, id: Id) {
    && !IsPending(store, id)
    && forall g :: g in gs && gs[g].id == id ==> !gs[g].phase.Marking?
  }

  lemma MovedIsQuiet(c: Config, d: Delivery, a: Action, sight: Sight, store: Store, id: Id)
    requires Can(c, d, a, sight) && sight.stored == Lookup(store, d.id)
    requires d.id == id ==> !IsPending(store, id) && !d.phase.Marking?
    ensures Moved(c, d, a, sight).id == d.id && (d.id == id ==> !Moved(c, d, a, sight).phase.Marking?)
  {
  }

  lemma StepKeepsQuiet(c: Config, s: State, l: Label, t: State, id: Id)
    requires GsStep(c, s, l, t.ctl.gs) && Quiet(s.ctl.gs, s.store, id) && !IsPending(t.store, id)
    ensures Quiet(t.ctl.gs, t.store, id)
  {
    if l.Run? {
      MovedIsQuiet(c, s.ctl.gs[l.g], l.action, SightOf(c, s, s.ctl.gs[l.g]), s.store, id);
    }
  }

  lemma MarkQuiets(c: Config, s: State, l: Label, t: State, id: Id)
    requires Exclusive(s.ctl.gs, s.ctl.inflight) && GsStep(c, s, l, t.ctl.gs) && StoreStep(s, l, t.store)
    requires Marks(s, l, id) && l.action.ok && s.ctl.gs[l.g].task.id == id
    ensures Quiet(t.ctl.gs, t.store, id)
  {
  }

  ghost predicate NotArmedBetween(ss: seq<State>, id: Id, lo: nat, hi: nat)
    requires hi <= |ss|
  {
    forall k :: lo <= k < hi - 1 ==> IsPending(ss[k].store, id) || !IsPending(ss[k + 1].store, id)
  }

  lemma {:induction false} QuietUntilArmed(c: Config, ss: seq<State>, ls: seq<Label>, id: Id, i: nat, n: nat)
    requires IsRun(c, ss, ls) && i <= n < |ss| && Quiet(ss[i].ctl.gs, ss[i].store, id)
    requires NotArmedBetween(ss, id, i, n + 1)
    ensures Quiet(ss[n].ctl.gs, ss[n].store, id)
  {
    if i < n {
      QuietUntilArmed(c, ss, ls, id, i, n - 1);
      var k := n - 1;
      RunSteps(c, ss, ls, k);
      StepOfGs(c, ss[k], ls[k], ss[n].ctl);
      StepKeepsQuiet(c, ss[k], ls[k], ss[n], id);
    }
  }

  /** Between a recorded firing of a task and its next firing, some step made it pending again. */
  lemma OneFiringPerArming(c: Config, ss: seq<State>, ls: seq<Label>, i: nat, j: nat, id: Id)
    requires IsRun(c, ss, ls) && i < j < |ls|
    requires Marks(ss[i], ls[i], id) && ls[i].action.ok && Marks(ss[j], ls[j], id)
    ensures exists k :: i < k < j && !IsPending(ss[k].store, id) && IsPending(ss[k + 1].store, id)
  {
    InvAlways(c, ss, ls, i);
    RunSteps(c, ss, ls, i);
    StepOfGs(c, ss[i], ls[i], ss[i + 1].ctl);
    assert DeliveryOk(c, ss[i].clock, ss[i].ctl.gs[ls[i].g]);
    MarkQuiets(c, ss[i], ls[i], ss[i + 1], id);
    RunSteps(c, ss, ls, j);
    assert ss[j].ctl.gs[ls[j].g].phase.Marking?;
    if NotArmedBetween(ss, id, i + 1, j + 1) {
      QuietUntilArmed(c, ss, ls, id, i + 1, j);
    }
  }

  // ---- the record that is fired

  /** Step r was goroutine g's re-read, and found `rec` pending in the store. */
  ghost predicate RereadAt(ss: seq<State>, ls: seq<Label>, r: nat, g: nat, rec: Task)
    requires r < |ss| && r < |ls|
  {
    ls[r].Run? && ls[r].g == g && ls[r].action.Reread? && IsPending(ss[r].store, rec.id) && ss[r].store[rec.id] == rec
  }

  lemma {:induction false} RereadHappened(c: Config, ss: seq<State>, ls: seq<Label>, n: nat, g: nat) returns (r: nat)
    requires IsRun(c, ss, ls) && n <= |ls| && g in ss[n].ctl.gs && UnderWay(ss[n].ctl.gs[g].phase)
    ensures r < n && RereadAt(ss, ls, r, g, ss[n].ctl.gs[g].base)
  {
    assert Start(ss[0]);
    assert n > 0;
    var k := n - 1;
    RunSteps(c, ss, ls, k);
    StepOfGs(c, ss[k], ls[k], ss[n].ctl);
    if ls[k].Run? && ls[k].g == g && ls[k].action.Reread? {
      InvAlways(c, ss, ls, k);
      RereadIsBase(c, ss[k], ls[k], ss[n], g);
      r := k;
    } else {
      BaseKept(c, ss[k], ls[k], ss[n], g);
      r := RereadHappened(c, ss, ls, k, g);
    }
  }

  /** Only a re-read starts a run or changes its base. */
  lemma BaseKept(c: Config, s: State, l: Label, t: State, g: nat)
    requires GsStep(c, s, l, t.ctl.gs) && g in t.ctl.gs && UnderWay(t.ctl.gs[g].phase)
    requires !(l.Run? && l.g == g && l.action.Reread?)
    ensures g in s.ctl.gs && UnderWay(s.ctl.gs[g].phase) && s.ctl.gs[g].base == t.ctl.gs[g].base
  {
  }

  lemma RereadIsBase(c: Config, s: State, l: Label, t: State, g: nat)
    requires GsStep(c, s, l, t.ctl.gs) && g in t.ctl.gs && UnderWay(t.ctl.gs[g].phase) && StoreOk(s.store)
    requires l.Run? && l.g == g && l.action.Reread?
    ensures var rec := t.ctl.gs[g].base; IsPending(s.store, rec.id) && s.store[rec.id] == rec
  {
  }

  lemma FirstCallTask(c: Config, now: Time, d: Delivery)
    requires DeliveryOk(c, now, d) && d.phase.Firing? && d.tries == 0
    ensures d.task == d.base.(status := Running) && FiredInTime(c, d)
  {
    assert |d.task.attempts| == |d.base.attempts| && d.base.attempts <= d.task.attempts;
  }

  /** The first request of a run sends the record found pending at the re-read, neither early nor too stale. */
  lemma FirstCallIsFresh(c: Config, ss: seq<State>, ls: seq<Label>, j: nat, g: nat) returns (r: nat)
    requires IsRun(c, ss, ls) && j < |ls| && ls[j] == Run(g, CallTarget) && g in ss[j].ctl.gs && ss[j].ctl.gs[g].tries == 0
    ensures r < j
    ensures var d := ss[j].ctl.gs[g];
            && RereadAt(ss, ls, r, g, d.base)
            && d.task == d.base.(status := Running)
            && d.base.executeAt <= d.fireTime
            && (c.maxStaleness > 0 ==> d.fireTime - d.base.executeAt <= c.maxStaleness)
  {
    var d := ss[j].ctl.gs[g];
    InvAlways(c, ss, ls, j);
    RunSteps(c, ss, ls, j);
    StepOfGs(c, ss[j], ls[j], ss[j + 1].ctl);
    FirstCallTask(c, ss[j].clock, d);
    r := RereadHappened(c, ss, ls, j, g);
  }

  /** The re-read decides, exactly: a task no longer wanted is left alone, one later than the limit is retired, any other fires. */
  lemma RereadDecides(c: Config, ss: seq<State>, ls: seq<Label>, n: nat, g: nat)
    requires IsRun(c, ss, ls) && n < |ls| && ls[n] == Run(g, Reread(true))
    ensures g in ss[n].ctl.gs && g in ss[n + 1].ctl.gs && ss[n + 1].store == ss[n].store
    ensures var d, e, store := ss[n].ctl.gs[g], ss[n + 1].ctl.gs[g], ss[n].store;
            if d.id !in store || !store[d.id].status.Pending? || store[d.id].executeAt != d.task.executeAt then e.phase.Leaving?
            else if c.maxStaleness > 0 && d.fireTime > store[d.id].executeAt + c.maxStaleness
            then e.phase.Finalizing? && IsSkip(store[d.id], d.fireTime, e.task)
            else e.phase.Marking? && e.task == store[d.id]
  {
    RunSteps(c, ss, ls, n);
    StepOfGs(c, ss[n], ls[n], ss[n + 1].ctl);
    var d, e := ss[n].ctl.gs[g], ss[n + 1].ctl.gs[g];
    if e.phase.Finalizing? {
      SkippedIsSkip(ss[n].store[d.id], d.fireTime, e.task);
    }
  }

  /** After the terminal write a failed run, and no other, goes on to its callback. */
  lemma FailureIsNoticed(c: Config, ss: seq<State>, ls: seq<Label>, n: nat, g: nat, ok: bool)
    requires IsRun(c, ss, ls) && n < |ls| && ls[n] == Run(g, Finalize(ok))
    ensures g in ss[n + 1].ctl.gs && g in ss[n].ctl.gs
    ensures ss[n + 1].ctl.gs[g].phase == if ss[n].ctl.gs[g].task.status.Failed? then Notifying else Rescheduling
  {
    RunSteps(c, ss, ls, n);
    StepOfGs(c, ss[n], ls[n], ss[n + 1].ctl);
  }

  /** It calls back if and only if the task has a callback url of its own or there is a fallback: attempts are never missing. */
  lemma FailureCallsBack(c: Config, ss: seq<State>, ls: seq<Label>, n: nat, g: nat)
    requires IsRun(c, ss, ls) && n < |ls| && ls[n] == Run(g, Notify)
    ensures g in ss[n + 1].ctl.gs && g in ss[n].ctl.gs
    ensures ss[n + 1].ctl.gs[g].phase
            == if ss[n].ctl.gs[g].base.onFailureUrl != "" || c.onFailureUrl != "" then CallingBack else Rescheduling
  {
    InvAlways(c, ss, ls, n);
    RunSteps(c, ss, ls, n);
    StepOfGs(c, ss[n], ls[n], ss[n + 1].ctl);
    NoticedHasAttempts(c, ss[n].clock, ss[n].ctl.gs[g]);
  }

  lemma NoticedHasAttempts(c: Config, now: Time, d: Delivery)
    requires DeliveryOk(c, now, d) && d.phase.Notifying?
    ensures d.task.attempts != [] && d.task.onFailureUrl == d.base.onFailureUrl
  {
  }

  // ---- shutdown

  lemma {:induction false} StaysStopped(c: Config, ss: seq<State>, ls: seq<Label>, i: nat, n: nat)
    requires IsRun(c, ss, ls) && i < n <= |ls| && ls[i].DrainDone?
    requires forall k :: i < k < n ==> !ls[k].Crash?
    ensures ss[n].ctl.loop == Stopped(true)
  {
    var k := n - 1;
    assert Enabled(c, ss[k], ls[k]) && ss[k + 1] == After(c, ss[k], ls[k]);
    if i < k {
      StaysStopped(c, ss, ls, i, k);
    }
  }

  /** Once a drain ends because every delivery is done, no goroutine of the runner takes another step. */
  lemma CleanDrainIsFinal(c: Config, ss: seq<State>, ls: seq<Label>, i: nat, j: nat)
    requires IsRun(c, ss, ls) && i < j < |ls| && ls[i].DrainDone?
    requires forall k :: i < k < j ==> !ls[k].Crash?
    ensures !ls[j].Run? && !ls[j].Claim? && ss[j].ctl.gs == map[]
  {
    StaysStopped(c, ss, ls, i, j);
    InvAlways(c, ss, ls, j);
    assert CountsExact(c, ss[j].ctl);
    assert Enabled(c, ss[j], ls[j]);
  }

  // ---- crashes

  /**
   Cut a run anywhere and restart: nothing is running, no record is lost or changed but for running ones
   going back to pending, and every task ever accepted is there unless deleted or expired.
   */
  lemma CrashLosesNothing(c: Config, ss: seq<State>, ls: seq<Label>, n: nat)
    requires IsRun(c, ss, ls) && n <= |ls|
    ensures Enabled(c, ss[n], Crash) && Enabled(c, After(c, ss[n], Crash), Restart(true))
    ensures var s := ss[n].store;
            var t := After(c, After(c, ss[n], Crash), Restart(true)).store;
            && t.Keys == s.Keys
            && (forall id :: id in t ==> !t[id].status.Running?)
            && (forall id :: id in t ==> t[id] == s[id] || (s[id].status.Running? && t[id] == s[id].(status := Pending)))
            && ss[n].books.lineage.Keys <= t.Keys + ss[n].books.removed
  {
    AcceptedKept(c, ss, ls, n);
    assert Requeue(ss[n].store).Keys == ss[n].store.Keys;
  }

  lemma {:induction false} AcceptedKept(c: Config, ss: seq<State>, ls: seq<Label>, n: nat)
    requires IsRun(c, ss, ls) && n <= |ls|
    ensures ss[n].books.lineage.Keys <= ss[n].store.Keys + ss[n].books.removed
  {
    if n == 0 {
      assert Start(ss[0]);
      assert ss[0].books.lineage.Keys == ss[0].store.Keys;
    } else {
      AcceptedKept(c, ss, ls, n - 1);
      InvAlways(c, ss, ls, n - 1);
      RunSteps(c, ss, ls, n - 1);
      StepKeepsAccepted(c, ss[n - 1], ls[n - 1], ss[n]);
    }
  }

  /** An id counts as removed only because some step took it out of the store. */
  lemma {:induction false} RemovedByStep(c: Config, ss: seq<State>, ls: seq<Label>, n: nat, id: Id) returns (k: nat)
    requires IsRun(c, ss, ls) && n <= |ls| && id in ss[n].books.removed
    ensures k < n && (ls[k].BulkDelete? || ls[k].Expire?) && id in ss[k].store && id !in ss[k + 1].store
  {
    assert Start(ss[0]);
    assert n > 0;
    RunSteps(c, ss, ls, n - 1);
    if id in ss[n - 1].books.removed {
      k := RemovedByStep(c, ss, ls, n - 1, id);
    } else {
      k := n - 1;
    }
  }

  lemma StepKeepsAccepted(c: Config, s: State, l: Label, t: State)
    requires Stepped(c, s, l, t) && IdsOk(s) && RecordsOk(c, s)
    requires s.books.lineage.Keys <= s.store.Keys + s.books.removed
    ensures t.books.lineage.Keys <= t.store.Keys + t.books.removed
  {
    SavedIsAccepted(c, s, l, t);
    UpsertKeys(s.store, Saved(s, l));
    RequeueOk(s.store);
  }

  lemma UpsertKeys(store: Store, t: Option<Task>)
    ensures Upsert(store, t).Keys == store.Keys + (if t.Some? then {t.value.id} else {})
  {
  }

  /** A task joins the books only by being saved. */
  lemma SavedIsAccepted(c: Config, s: State, l: Label, t: State)
    requires Stepped(c, s, l, t) && DeliveriesOk(c, s.clock, s.ctl.gs)
    ensures t.books.lineage.Keys <= s.books.lineage.Keys + (if Saved(s, l).Some? then {Saved(s, l).value.id} else {})
  {
    match l {
      case Run(g, a) =>
        assert DeliveryOk(c, s.clock, s.ctl.gs[g]);
        if a.Reschedule? && Written(s.ctl.gs[g], a).Some? {
          StepWritesOk(c, s.ctl.gs[g], a, SightOf(c, s, s.ctl.gs[g]));
        }
      case _ =>
    }
  }
}
