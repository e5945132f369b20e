/** When a cancel stands: exactly when nothing already under way will undo it. */
module Cancellation {
  import opened Tasks
  import opened Delivery
  import opened Protocol
  import opened Steps
  import opened Integrity
  import opened Continuations

  /** An edit or a replay that loaded this task and has not yet written it back. */
  predicate InFlight(h: Handler, id: Id) {
    h.loaded.id == id && !h.op.Cancel?
  }

  ghost predicate Settled(s: State, id: Id) {
    && (forall g :: g in s.ctl.gs ==> !Threatens(s.ctl.gs[g], id))
    && (forall h :: h in s.api.handlers ==> !InFlight(s.api.handlers[h], id))
  }

  predicate CancelledOrGone(store: Store, id: Id) {
    id in store ==> store[id].status.Cancelled?
  }

  ghost predicate Silent(s: State, id: Id) {
    id in s.books.lineage && CancelledOrGone(s.store, id) && Settled(s, id)
  }

  /** A request, made from now on, to replay the task. */
  predicate Replays(l: Label, id: Id) {
    (l.Atomic? || l.Load?) && l.id == id && l.op.Replay?
  }

  /** The step re-opens the cancelled task, overwrites its record with another outcome, or saves it a successor. */
  predicate Undoes(s: State, l: Label, id: Id) {
    && Saved(s, l).Some?
    && ((Saved(s, l).value.id == id && !Saved(s, l).value.status.Cancelled?)
        || (l.Run? && l.action.Reschedule? && l.g in s.ctl.gs && s.ctl.gs[l.g].id == id))
  }

  // ---- a settled cancel is never undone

  lemma WriterThreatens(c: Config, s: State, g: nat, a: Action)
    requires g in s.ctl.gs && Can(c, s.ctl.gs[g], a, SightOf(c, s, s.ctl.gs[g])) && DeliveriesOk(c, s.clock, s.ctl.gs)
    requires Written(s.ctl.gs[g], a).Some?
    ensures Threatens(s.ctl.gs[g], s.ctl.gs[g].id)
    ensures Written(s.ctl.gs[g], a).value.id == if a.Reschedule? then a.newId else s.ctl.gs[g].id
  {
    var d := s.ctl.gs[g];
    assert DeliveryOk(c, s.clock, d);
    StepWritesOk(c, d, a, SightOf(c, s, d));
  }

  lemma SilentNotUndone(c: Config, s: State, l: Label, t: State, id: Id)
    requires Stepped(c, s, l, t) && RecordsOk(c, s) && IdsOk(s) && Silent(s, id) && !Replays(l, id)
    ensures !Undoes(s, l, id)
  {
    assert s.books.lineage.Keys <= s.books.used;
    if Saved(s, l).Some? {
      match l {
        case Run(g, a) => WriterThreatens(c, s, g, a);
        case WriteBack(h, _) => AppliedOk(s.api.handlers[h].op, s.api.handlers[h].loaded, s.clock);
        case Atomic(x, op) => AppliedOk(op, s.store[x], s.clock);
        case _ =>
      }
    }
  }

  lemma StaysCancelled(c: Config, s: State, l: Label, t: State, id: Id)
    requires Stepped(c, s, l, t) && RecordsOk(c, s) && IdsOk(s) && Silent(s, id) && !Replays(l, id)
    ensures CancelledOrGone(t.store, id)
  {
    StoreIsOneOf(s, l, t.store);
    SilentNotUndone(c, s, l, t, id);
  }

  lemma NoNewThreat(c: Config, s: State, l: Label, t: State, id: Id, g: nat)
    requires GsStep(c, s, l, t.ctl.gs) && Silent(s, id) && g in t.ctl.gs
    ensures !Threatens(t.ctl.gs[g], id)
  {
    if g in s.ctl.gs {
      assert !Threatens(s.ctl.gs[g], id);
    }
  }

  lemma NoneLoaded(s: State, l: Label, t: State, id: Id, h: nat)
    requires ApiStep(s, l, t.api) && StoreOk(s.store) && Silent(s, id) && !Replays(l, id) && h in t.api.handlers
    ensures !InFlight(t.api.handlers[h], id)
  {
    if h in s.api.handlers {
      assert !InFlight(s.api.handlers[h], id);
    }
  }

  lemma StepKeepsSilent(c: Config, s: State, l: Label, t: State, id: Id)
    requires Stepped(c, s, l, t) && RecordsOk(c, s) && IdsOk(s) && Silent(s, id) && !Replays(l, id)
    ensures Silent(t, id)
  {
    BooksGrow(s, l, t.books);
    assert id in t.books.lineage.Keys;
    StaysCancelled(c, s, l, t, id);
    StepOfGs(c, s, l, t.ctl);
    forall g | g in t.ctl.gs
      ensures !Threatens(t.ctl.gs[g], id)
    {
      NoNewThreat(c, s, l, t, id, g);
    }
    forall h | h in t.api.handlers
      ensures !InFlight(t.api.handlers[h], id)
    {
      NoneLoaded(s, l, t, id, h);
    }
  }

  // ---- continuations

  ghost predicate Unreplayed(ls: seq<Label>, id: Id, i: nat, j: nat)
    requires j <= |ls|
  {
    forall k :: i <= k < j ==> !Replays(ls[k], id)
  }

  lemma SilentNext(c: Config, s: State, l: Label, id: Id)
    requires Inv(c, s) && Enabled(c, s, l) && Silent(s, id) && !Replays(l, id)
    ensures Silent(After(c, s, l), id) && !Undoes(s, l, id)
  {
    StepIs(c, s, l);
    StepKeepsSilent(c, s, l, After(c, s, l), id);
    SilentNotUndone(c, s, l, After(c, s, l), id);
  }

  lemma {:induction false} SilentAlong(c: Config, ss: seq<State>, ls: seq<Label>, i: nat, j: nat, id: Id)
    requires IsPath(c, ss, ls) && i <= j <= |ls| && Unreplayed(ls, id, i, j) && Inv(c, ss[i]) && Silent(ss[i], id)
    ensures Silent(ss[j], id)
  {
    if i < j {
      SilentAlong(c, ss, ls, i, j - 1, id);
      InvAlong(c, ss, ls, i, j - 1);
      SilentAfter(c, ss, ls, j - 1, id);
    }
  }

  lemma SilentAfter(c: Config, ss: seq<State>, ls: seq<Label>, n: nat, id: Id)
    requires IsPath(c, ss, ls) && n < |ls| && !Replays(ls[n], id) && Inv(c, ss[n]) && Silent(ss[n], id)
    ensures Silent(ss[n + 1], id) && !Undoes(ss[n], ls[n], id)
  {
    assert StepAt(c, ss, ls, n);
    SilentNext(c, ss[n], ls[n], id);
  }

  // ---- a cancel that is not settled can be undone

  /** A continuation of `s`, without a new replay, whose last step undoes the cancel. */
  ghost predicate UndonePath(c: Config, s: State, id: Id, ss: seq<State>, ls: seq<Label>) {
    && IsPath(c, ss, ls) && ls != [] && ss[0] == s
    && Unreplayed(ls, id, 0, |ls|)
    && Undoes(ss[|ls| - 1], ls[|ls| - 1], id)
  }

  ghost predicate CanBeUndone(c: Config, s: State, id: Id) {
    exists ss, ls :: UndonePath(c, s, id, ss, ls)
  }

  lemma OneStepUndoes(c: Config, s: State, l: Label, id: Id)
    requires Enabled(c, s, l) && !Replays(l, id) && Undoes(s, l, id)
    ensures CanBeUndone(c, s, id)
  {
    var ss, ls := [s, After(c, s, l)], [l];
    assert StepAt(c, ss, ls, 0);
    assert UndonePath(c, s, id, ss, ls);
  }

  lemma OneMoreStep(c: Config, s: State, l: Label, id: Id)
    requires Enabled(c, s, l) && !Replays(l, id) && CanBeUndone(c, After(c, s, l), id)
    ensures CanBeUndone(c, s, id)
  {
    var ss, ls :| UndonePath(c, After(c, s, l), id, ss, ls);
    var ss', ls' := [s] + ss, [l] + ls;
    PathPrepended(c, s, l, ss, ls);
    forall k | 0 <= k < |ls'|
      ensures !Replays(ls'[k], id)
    {
      if k > 0 {
        assert ls'[k] == ls[k - 1];
      }
    }
    assert UndonePath(c, s, id, ss', ls');
  }

  lemma LastStepUndoes(c: Config, s: State, g: nat, id: Id, newId: Id)
    requires Inv(c, s) && IsFresh(s, newId) && g in s.ctl.gs && Threatens(s.ctl.gs[g], id)
    requires StepsLeft(s.ctl.gs[g].phase) == 0
    ensures Enabled(c, s, Run(g, NextAction(s.ctl.gs[g].phase, newId)))
    ensures Undoes(s, Run(g, NextAction(s.ctl.gs[g].phase, newId)), id)
  {
    var d := s.ctl.gs[g];
    assert DeliveryOk(c, s.clock, d);
  }

  lemma {:induction false} RunUndoes(c: Config, s: State, g: nat, id: Id, newId: Id)
    requires Inv(c, s) && IsFresh(s, newId) && g in s.ctl.gs && Threatens(s.ctl.gs[g], id)
    ensures CanBeUndone(c, s, id)
    decreases StepsLeft(s.ctl.gs[g].phase)
  {
    var l := Run(g, NextAction(s.ctl.gs[g].phase, newId));
    if StepsLeft(s.ctl.gs[g].phase) == 0 {
      LastStepUndoes(c, s, g, id, newId);
      OneStepUndoes(c, s, l, id);
    } else {
      RunGoesOn(c, s, g, id, newId);
      StepKeepsInv(c, s, l);
      RunUndoes(c, After(c, s, l), g, id, newId);
      OneMoreStep(c, s, l, id);
    }
  }

  /** The late write of an edit or a replay makes the cancelled task pending again. */
  lemma WriteBackUndoes(c: Config, s: State, h: nat, id: Id)
    requires Inv(c, s) && h in s.api.handlers && InFlight(s.api.handlers[h], id)
    ensures CanBeUndone(c, s, id)
  {
    var l := WriteBack(h, true);
    AppliedOk(s.api.handlers[h].op, s.api.handlers[h].loaded, s.clock);
    OneStepUndoes(c, s, l, id);
  }

  // ---- the exact condition

  /**
   From a state in which the task is cancelled, some continuation without a new replay undoes the cancel if
   and only if a run of the task has still to write, or an edit or replay of it is in flight.
   */
  lemma CancelStandsWhen(c: Config, s: State, id: Id)
    requires Inv(c, s) && id in s.store && s.store[id].status.Cancelled?
    ensures CanBeUndone(c, s, id) <==> !Settled(s, id)
  {
    if Settled(s, id) {
      assert id in s.store.Keys;
      forall ss, ls
        ensures !UndonePath(c, s, id, ss, ls)
      {
        NoUndonePath(c, s, id, ss, ls);
      }
    } else {
      var newId := SomeFreshId(s);
      if g :| g in s.ctl.gs && Threatens(s.ctl.gs[g], id) {
        RunUndoes(c, s, g, id, newId);
      } else {
        var h :| h in s.api.handlers && InFlight(s.api.handlers[h], id);
        WriteBackUndoes(c, s, h, id);
      }
    }
  }

  lemma SilentAt(c: Config, ss: seq<State>, ls: seq<Label>, n: nat, id: Id)
    requires IsPath(c, ss, ls) && n < |ls| && Unreplayed(ls, id, 0, |ls|) && Inv(c, ss[0]) && Silent(ss[0], id)
    ensures !Undoes(ss[n], ls[n], id)
  {
    SilentAlong(c, ss, ls, 0, n, id);
    InvAlong(c, ss, ls, 0, n);
    SilentAfter(c, ss, ls, n, id);
  }

  lemma NoUndonePath(c: Config, s: State, id: Id, ss: seq<State>, ls: seq<Label>)
    requires Inv(c, s) && Silent(s, id)
    ensures !UndonePath(c, s, id, ss, ls)
  {
    if IsPath(c, ss, ls) && ls != [] && ss[0] == s && Unreplayed(ls, id, 0, |ls|) {
      SilentAt(c, ss, ls, |ls| - 1, id);
    }
  }

  // ---- cancels in whole runs

  /** The step cancels the task, by one atomic request or by the write of one that loaded it earlier. */
  ghost predicate Cancels(s: State, l: Label, id: Id) {
    || (l.Atomic? && l.id == id && l.op.Cancel?)
    || (l.WriteBack? && l.ok && l.h in s.api.handlers && s.api.handlers[l.h].op.Cancel? && s.api.handlers[l.h].loaded.id == id)
  }

  lemma CancelSilences(c: Config, s: State, l: Label, t: State, id: Id)
    requires Stepped(c, s, l, t) && RecordsOk(c, s) && IdsOk(s) && Cancels(s, l, id) && Settled(s, id)
    ensures Silent(t, id) && id in t.store
  {
    assert s.store.Keys <= s.books.lineage.Keys && HandlersKnown(s.api.handlers, s.books.lineage.Keys);
    StepOfGs(c, s, l, t.ctl);
  }

  /**
   A cancel that finds no run of the task with anything left to write, and no edit or replay of it in flight,
   is final: until someone replays the task, its record stays cancelled until it is deleted or expires, and
   no step re-opens it, overwrites it, fires it or saves it a successor.
   */
  lemma CancelStands(c: Config, ss: seq<State>, ls: seq<Label>, i: nat, j: nat, id: Id)
    requires IsRun(c, ss, ls) && i < j < |ls|
    requires Cancels(ss[i], ls[i], id) && Settled(ss[i], id) && Unreplayed(ls, id, i + 1, j + 1)
    ensures CancelledOrGone(ss[j].store, id) && !Undoes(ss[j], ls[j], id) && !Fires(ss[j], ls[j], id)
  {
    CancelSilencesAt(c, ss, ls, i, id);
    RunIsPath(c, ss, ls);
    InvAlways(c, ss, ls, i + 1);
    SilentAlong(c, ss, ls, i + 1, j, id);
    InvAlways(c, ss, ls, j);
    SilentAfter(c, ss, ls, j, id);
    RunSteps(c, ss, ls, j);
    SilentNotFired(c, ss[j], ls[j], ss[j + 1], id);
  }

  /** A goroutine of the task commits to firing it, or calls its target. */
  predicate Fires(s: State, l: Label, id: Id) {
    l.Run? && (l.action.MarkRunning? || l.action.CallTarget?) && l.g in s.ctl.gs && s.ctl.gs[l.g].id == id
  }

  lemma SilentNotFired(c: Config, s: State, l: Label, t: State, id: Id)
    requires ControlStep(c, s, l, t.ctl) && Settled(s, id)
    ensures !Fires(s, l, id)
  {
  }

  lemma CancelSilencesAt(c: Config, ss: seq<State>, ls: seq<Label>, i: nat, id: Id)
    requires IsRun(c, ss, ls) && i < |ls| && Cancels(ss[i], ls[i], id) && Settled(ss[i], id)
    ensures Silent(ss[i + 1], id)
  {
    InvAlways(c, ss, ls, i);
    RunSteps(c, ss, ls, i);
    CancelSilences(c, ss[i], ls[i], ss[i + 1], id);
  }

  /** In particular, a run that has its outcome overwrites the cancelled record with it. */
  lemma CancelLost(c: Config, s: State, g: nat)
    requires Inv(c, s) && Enabled(c, s, Run(g, Finalize(true)))
    requires var id := s.ctl.gs[g].id; id in s.store && s.store[id].status.Cancelled?
    ensures var id := s.ctl.gs[g].id; var t := After(c, s, Run(g, Finalize(true)));
            id in t.store && (t.store[id].status.Succeeded? || t.store[id].status.Failed?)
  {
    var d := s.ctl.gs[g];
    assert DeliveryOk(c, s.clock, d);
    StepWritesOk(c, d, Finalize(true), SightOf(c, s, d));
  }
}
